/**
 The IVRNativeService proxy and stub: every call is written into a parcel, taken apart by onTransact,
 performed, and its results written back and read out.
 */
module NativeServiceRpc {
  import opened Parcels

  type Handle = Int32

  /** A call as the caller makes it; out is what the caller's result string holds beforehand. */
  datatype Call =
    | GetSystemNode(path: String8, out: String8)
    | SetSystemNode(path: String8, value: String8)
    | SystemCall(cmd: String8, out: String8)
    | GetProperty(key: String8, out: String8)
    | SetProperty(key: String8, value: String8)
    | SetThreadScheduler(tid: Int32, policy: Int32, pri: Int32)
    | SetPostEventObj(binder: Handle)

  /** The return code and what the result string holds afterwards. */
  datatype Outcome = Outcome(ret: Int32, out: String8)

  predicate HasOut(c: Call) {
    c.GetSystemNode? || c.SystemCall? || c.GetProperty?
  }

  /** The call with an empty result string, as the stub makes it. */
  function Fresh(c: Call): Call {
    if HasOut(c) then c.(out := []) else c
  }

  /** What the caller sees of an outcome. */
  function Seen(c: Call, o: Outcome): (s: Outcome)
    ensures s.ret == o.ret && s.out == if HasOut(c) then o.out else []
  {
    if HasOut(c) then o else o.(out := [])
  }

  /** Transaction codes count from FIRST_CALL_TRANSACTION. */
  function Code(c: Call): nat {
    match c
    case GetSystemNode(_, _) => 1
    case SetSystemNode(_, _) => 2
    case SystemCall(_, _) => 3
    case GetProperty(_, _) => 4
    case SetProperty(_, _) => 5
    case SetThreadScheduler(_, _, _) => 6
    case SetPostEventObj(_) => 7
  }

  /** The interface descriptor both sides write and check; which non-empty string it is plays no part. */
  const DESCRIPTOR: Token

  function Arguments(c: Call): seq<Byte> {
    match c
    case GetSystemNode(path, _) => EncodeString(path)
    case SetSystemNode(path, value) => EncodeString(path) + EncodeString(value)
    case SystemCall(cmd, _) => EncodeString(cmd)
    case GetProperty(key, _) => EncodeString(key)
    case SetProperty(key, value) => EncodeString(key) + EncodeString(value)
    case SetThreadScheduler(tid, policy, pri) => EncodeInt(tid) + EncodeInt(policy) + EncodeInt(pri)
    case SetPostEventObj(binder) => EncodeInt(binder)
  }

  function Request(c: Call): seq<Byte> {
    EncodeString(DESCRIPTOR) + Arguments(c)
  }

  function Response(c: Call, o: Outcome): seq<Byte> {
    if HasOut(c) then EncodeString(o.out) + EncodeInt(o.ret) else EncodeInt(o.ret)
  }

  lemma {:induction false} TokenRead(c: Call)
    ensures TakeString(Request(c), 0) == (DESCRIPTOR, |EncodeString(DESCRIPTOR)|)
  {
    StringAt([], DESCRIPTOR, Arguments(c));
    assert [] + EncodeString(DESCRIPTOR) + Arguments(c) == Request(c);
  }

  lemma {:induction false} TwoStrings(before: seq<Byte>, s: String8, t: String8)
    ensures var d := before + (EncodeString(s) + EncodeString(t));
            TakeStrings(d, |before|) == (s, t, |d|)
  {
    StringAt(before, s, EncodeString(t));
    Regroup(before, EncodeString(s), EncodeString(t));
    LastString(before + EncodeString(s), t);
  }

  lemma {:induction false} Regroup(a: seq<Byte>, b: seq<Byte>, c: seq<Byte>)
    ensures a + b + c == a + (b + c)
  {
  }

  lemma {:induction false} RegroupThree(a: seq<Byte>, b: seq<Byte>, c: seq<Byte>, d: seq<Byte>)
    ensures a + b + c + d == a + (b + c + d)
  {
  }

  /** A reply with a string holds the string, then the return code, and nothing more. */
  lemma {:induction false} ReplyOf(out: String8, ret: Int32)
    ensures var d, q := EncodeString(out) + EncodeInt(ret), |EncodeString(out)|;
            TakeString(d, 0) == (out, q) && TakeInt(d, q) == (ret, |d|)
  {
    StringAt([], out, EncodeInt(ret));
    LastInt(EncodeString(out), ret);
    assert [] + EncodeString(out) + EncodeInt(ret) == EncodeString(out) + EncodeInt(ret);
  }

  lemma {:induction false} ThreeInts(before: seq<Byte>, i: Int32, j: Int32, k: Int32)
    ensures var d := before + (EncodeInt(i) + EncodeInt(j) + EncodeInt(k));
            TakeInts(d, |before|) == (i, j, k, |d|)
  {
    var d := before + (EncodeInt(i) + EncodeInt(j) + EncodeInt(k));
    IntAt(before, i, EncodeInt(j) + EncodeInt(k));
    assert d == before + EncodeInt(i) + (EncodeInt(j) + EncodeInt(k));
    IntAt(before + EncodeInt(i), j, EncodeInt(k));
    assert d == before + EncodeInt(i) + EncodeInt(j) + EncodeInt(k);
    LastInt(before + EncodeInt(i) + EncodeInt(j), k);
  }

  function TakeStrings(d: seq<Byte>, p: nat): (String8, String8, nat) {
    var (s, q) := TakeString(d, p);
    var (t, r) := TakeString(d, q);
    (s, t, r)
  }

  function TakeInts(d: seq<Byte>, p: nat): (Int32, Int32, Int32, nat) {
    var (i, q) := TakeInt(d, p);
    var (j, r) := TakeInt(d, q);
    var (k, end) := TakeInt(d, r);
    (i, j, k, end)
  }

  /** The arguments a stub finds at position p, read left to right, and where it stops; result strings start empty. */
  function Parse(code: nat, d: seq<Byte>, p: nat): (Call, nat)
    requires 1 <= code <= 7
  {
    match code
    case 1 => var (s, q) := TakeString(d, p); (GetSystemNode(s, []), q)
    case 2 => var (s, t, q) := TakeStrings(d, p); (SetSystemNode(s, t), q)
    case 3 => var (s, q) := TakeString(d, p); (SystemCall(s, []), q)
    case 4 => var (s, q) := TakeString(d, p); (GetProperty(s, []), q)
    case 5 => var (s, t, q) := TakeStrings(d, p); (SetProperty(s, t), q)
    case 6 => var (tid, policy, pri, q) := TakeInts(d, p); (SetThreadScheduler(tid, policy, pri), q)
    case _ => var (binder, q) := TakeInt(d, p); (SetPostEventObj(binder), q)
  }

  /** What is read back from a request is the call, with its result string empty, and nothing is left over. */
  lemma {:induction false} ParseRequest(c: Call)
    ensures Parse(Code(c), Request(c), |EncodeString(DESCRIPTOR)|) == (Fresh(c), |Request(c)|)
  {
    if HasOut(c) {
      ParseOne(c);
    } else if c.SetSystemNode? || c.SetProperty? {
      ParseTwo(c);
    } else {
      ParseInts(c);
    }
  }

  lemma {:induction false} ParseOne(c: Call)
    requires HasOut(c)
    ensures Parse(Code(c), Request(c), |EncodeString(DESCRIPTOR)|) == (Fresh(c), |Request(c)|)
  {
    var head := EncodeString(DESCRIPTOR);
    match c
    case GetSystemNode(path, _) => LastString(head, path);
    case SystemCall(cmd, _) => LastString(head, cmd);
    case GetProperty(key, _) => LastString(head, key);
  }

  lemma {:induction false} ParseTwo(c: Call)
    requires c.SetSystemNode? || c.SetProperty?
    ensures Parse(Code(c), Request(c), |EncodeString(DESCRIPTOR)|) == (Fresh(c), |Request(c)|)
  {
    var head := EncodeString(DESCRIPTOR);
    match c
    case SetSystemNode(path, value) => TwoStrings(head, path, value);
    case SetProperty(key, value) => TwoStrings(head, key, value);
  }

  lemma {:induction false} ParseInts(c: Call)
    requires c.SetThreadScheduler? || c.SetPostEventObj?
    ensures Parse(Code(c), Request(c), |EncodeString(DESCRIPTOR)|) == (Fresh(c), |Request(c)|)
  {
    var head := EncodeString(DESCRIPTOR);
    match c
    case SetThreadScheduler(tid, policy, pri) => ThreeInts(head, tid, policy, pri);
    case SetPostEventObj(binder) => LastInt(head, binder);
  }

  /** The object behind the stub: any state, any behaviour. */
  class BnVRNativeService<S> {
    const impl: (S, Call) -> (S, Outcome)
    var state: S

    constructor (impl: (S, Call) -> (S, Outcome), state: S)
      ensures this.impl == impl && this.state == state
    {
      this.impl, this.state := impl, state;
    }

    /** The virtual call that performs c on the service itself. */
    method Perform(c: Call) returns (o: Outcome)
      modifies this`state
      ensures (state, o) == impl(old(state), c)
    {
      var after := impl(state, c);
      state := after.0;
      o := after.1;
    }

    /**
     Whatever the parcel holds: behind the right token its arguments are read in order, the call is performed and the
     reply holds the outcome. A wrong token or an unknown code leaves the service and the reply alone.
     */
    method OnTransact(code: nat, data: Parcel, reply: Parcel) returns (status: Int32)
      requires data != reply && data.pos == 0 && reply.data == []
      modifies this`state, data`pos, reply`data
      ensures var (token, p) := TakeString(data.data, 0);
              if !(1 <= code <= 7) then status == -74 && state == old(state) && reply.data == []
              else if token != DESCRIPTOR then status == -1 && state == old(state) && reply.data == []
              else
                var (call, q) := Parse(code, data.data, p);
                && status == 0 && data.pos == q
                && state == impl(old(state), call).0
                && reply.data == Response(call, impl(old(state), call).1)
    {
      if !(1 <= code <= 7) {
        return UNKNOWN_TRANSACTION;
      }
      var token := data.ReadString8();
      if token != DESCRIPTOR {
        return PERMISSION_DENIED;
      }
      var call := ReadCall(code, data);
      var o := Perform(call);
      WriteReply(reply, call, o);
      status := 0;
    }

    static method WriteReply(reply: Parcel, call: Call, o: Outcome)
      requires reply.data == []
      modifies reply`data
      ensures reply.data == Response(call, o)
    {
      if HasOut(call) {
        reply.WriteString8(o.out);
      }
      reply.WriteInt32(o.ret);
      assert [] + EncodeInt(o.ret) == EncodeInt(o.ret) && [] + EncodeString(o.out) == EncodeString(o.out);
    }

    /** The argument reads of each case. */
    static method ReadCall(code: nat, data: Parcel) returns (call: Call)
      requires 1 <= code <= 7
      modifies data`pos
      ensures (call, data.pos) == Parse(code, data.data, old(data.pos))
    {
      if code == 6 {
        var tid := data.ReadInt32();
        var policy := data.ReadInt32();
        var pri := data.ReadInt32();
        return SetThreadScheduler(tid, policy, pri);
      }
      if code == 7 {
        var binder := data.ReadInt32();
        return SetPostEventObj(binder);
      }
      var s := data.ReadString8();
      if code == 2 || code == 5 {
        var t := data.ReadString8();
        return if code == 2 then SetSystemNode(s, t) else SetProperty(s, t);
      }
      call := if code == 1 then GetSystemNode(s, []) else if code == 3 then SystemCall(s, []) else GetProperty(s, []);
    }
  }

  /** The client side. A transaction may fail in the binder: then its status comes back and nothing else happens. */
  class BpVRNativeService<S> {
    const remote: BnVRNativeService<S>

    constructor (remote: BnVRNativeService<S>)
      ensures this.remote == remote
    {
      this.remote := remote;
    }

    method Transact(code: nat, data: Parcel, reply: Parcel, fault: Int32, ghost c: Call) returns (status: Int32)
      requires data != reply && data.pos == 0 && reply.data == []
      requires code == Code(c) && data.data == Request(c)
      modifies remote`state, data`pos, reply`data
      ensures if fault != 0 then status == fault && remote.state == old(remote.state) && reply.data == []
              else status == 0 && data.pos == |data.data|
                   && remote.state == remote.impl(old(remote.state), Fresh(c)).0
                   && reply.data == Response(c, remote.impl(old(remote.state), Fresh(c)).1)
    {
      if fault != 0 {
        return fault;
      }
      TokenRead(c);
      ParseRequest(c);
      status := remote.OnTransact(code, data, reply);
    }

    /** What every proxy method comes to, as seen by its caller. */
    ghost predicate Delivered(c: Call, fault: Int32, before: S, o: Outcome)
      reads remote
    {
      if fault != 0 then remote.state == before && o.ret == fault && (HasOut(c) ==> o.out == c.out)
      else
        var (after, res) := remote.impl(before, Fresh(c));
        remote.state == after && o.ret == res.ret && (HasOut(c) ==> o.out == res.out)
    }

    method CallWithString(c: Call, argument: String8, fault: Int32) returns (ret: Int32, value: String8)
      requires HasOut(c) && Arguments(c) == EncodeString(argument)
      modifies remote`state
      ensures Delivered(c, fault, old(remote.state), Outcome(ret, value))
    {
      var data := new Parcel();
      var reply := new Parcel();
      data.WriteString8(DESCRIPTOR);
      assert data.data == EncodeString(DESCRIPTOR);
      data.WriteString8(argument);
      var status := Transact(Code(c), data, reply, fault, c);
      if status != 0 {
        return status, c.out;
      }
      ghost var o := remote.impl(old(remote.state), Fresh(c)).1;
      ReplyOf(o.out, o.ret);
      value := reply.ReadString8();
      ret := reply.ReadInt32();
      assert reply.pos == |reply.data|;
    }

    method GetSystemNode(path: String8, value0: String8, fault: Int32) returns (ret: Int32, value: String8)
      modifies remote`state
      ensures Delivered(Call.GetSystemNode(path, value0), fault, old(remote.state), Outcome(ret, value))
    {
      ret, value := CallWithString(Call.GetSystemNode(path, value0), path, fault);
    }

    method SystemCall(cmd: String8, result0: String8, fault: Int32) returns (ret: Int32, result: String8)
      modifies remote`state
      ensures Delivered(Call.SystemCall(cmd, result0), fault, old(remote.state), Outcome(ret, result))
    {
      ret, result := CallWithString(Call.SystemCall(cmd, result0), cmd, fault);
    }

    method GetProperty(key: String8, value0: String8, fault: Int32) returns (ret: Int32, value: String8)
      modifies remote`state
      ensures Delivered(Call.GetProperty(key, value0), fault, old(remote.state), Outcome(ret, value))
    {
      ret, value := CallWithString(Call.GetProperty(key, value0), key, fault);
    }

    /** Send a parcel whose reply is a return code alone. */
    method Send(c: Call, data: Parcel, fault: Int32) returns (ret: Int32)
      requires !HasOut(c) && data.pos == 0 && data.data == Request(c)
      modifies remote`state, data`pos
      ensures Delivered(c, fault, old(remote.state), Outcome(ret, []))
    {
      var reply := new Parcel();
      var status := Transact(Code(c), data, reply, fault, c);
      if status != 0 {
        return status;
      }
      ghost var o := remote.impl(old(remote.state), Fresh(c)).1;
      LastInt([], o.ret);
      assert [] + EncodeInt(o.ret) == reply.data;
      ret := reply.ReadInt32();
      assert reply.pos == |reply.data|;
    }

    method CallWithStrings(c: Call, first: String8, second: String8, fault: Int32) returns (ret: Int32)
      requires !HasOut(c) && Arguments(c) == EncodeString(first) + EncodeString(second)
      modifies remote`state
      ensures Delivered(c, fault, old(remote.state), Outcome(ret, []))
    {
      var data := new Parcel();
      data.WriteString8(DESCRIPTOR);
      assert data.data == EncodeString(DESCRIPTOR);
      data.WriteString8(first);
      data.WriteString8(second);
      Regroup(EncodeString(DESCRIPTOR), EncodeString(first), EncodeString(second));
      ret := Send(c, data, fault);
    }

    method SetSystemNode(path: String8, value: String8, fault: Int32) returns (ret: Int32)
      modifies remote`state
      ensures Delivered(Call.SetSystemNode(path, value), fault, old(remote.state), Outcome(ret, []))
    {
      ret := CallWithStrings(Call.SetSystemNode(path, value), path, value, fault);
    }

    method SetProperty(key: String8, value: String8, fault: Int32) returns (ret: Int32)
      modifies remote`state
      ensures Delivered(Call.SetProperty(key, value), fault, old(remote.state), Outcome(ret, []))
    {
      ret := CallWithStrings(Call.SetProperty(key, value), key, value, fault);
    }

    method SetThreadScheduler(tid: Int32, policy: Int32, pri: Int32, fault: Int32) returns (ret: Int32)
      modifies remote`state
      ensures Delivered(Call.SetThreadScheduler(tid, policy, pri), fault, old(remote.state), Outcome(ret, []))
    {
      var data := new Parcel();
      data.WriteString8(DESCRIPTOR);
      assert data.data == EncodeString(DESCRIPTOR);
      data.WriteInt32(tid);
      data.WriteInt32(policy);
      data.WriteInt32(pri);
      RegroupThree(EncodeString(DESCRIPTOR), EncodeInt(tid), EncodeInt(policy), EncodeInt(pri));
      ret := Send(Call.SetThreadScheduler(tid, policy, pri), data, fault);
    }

    method SetPostEventObj(binder: Handle, fault: Int32) returns (ret: Int32)
      modifies remote`state
      ensures Delivered(Call.SetPostEventObj(binder), fault, old(remote.state), Outcome(ret, []))
    {
      var data := new Parcel();
      data.WriteString8(DESCRIPTOR);
      assert data.data == EncodeString(DESCRIPTOR);
      data.WriteInt32(binder);
      ret := Send(Call.SetPostEventObj(binder), data, fault);
    }

    /** One call of any kind. */
    method Invoke(c: Call, fault: Int32) returns (o: Outcome)
      modifies remote`state
      ensures Delivered(c, fault, old(remote.state), o)
    {
      var ret: Int32, out: String8 := 0, [];
      match c {
        case GetSystemNode(path, out0) => ret, out := GetSystemNode(path, out0, fault);
        case SetSystemNode(path, value) => ret := SetSystemNode(path, value, fault);
        case SystemCall(cmd, out0) => ret, out := SystemCall(cmd, out0, fault);
        case GetProperty(key, out0) => ret, out := GetProperty(key, out0, fault);
        case SetProperty(key, value) => ret := SetProperty(key, value, fault);
        case SetThreadScheduler(tid, policy, pri) => ret := SetThreadScheduler(tid, policy, pri, fault);
        case SetPostEventObj(binder) => ret := SetPostEventObj(binder, fault);
      }
      o := Outcome(ret, out);
    }

    /** Any sequence of calls through the proxy is that sequence made on the service itself. */
    method InvokeAll(calls: seq<Call>) returns (outs: seq<Outcome>)
      modifies remote`state
      ensures (remote.state, outs) == Direct(remote.impl, old(remote.state), calls)
    {
      outs := [];
      var i := 0;
      while i < |calls|
        invariant 0 <= i <= |calls|
        invariant (remote.state, outs) == Direct(remote.impl, old(remote.state), calls[..i])
      {
        var o := Invoke(calls[i], 0);
        outs := outs + [Seen(calls[i], o)];
        i := i + 1;
        assert calls[..i][..i - 1] == calls[..i - 1];
      }
      assert calls[..i] == calls;
    }
  }

  /** Calls made directly on a service, each with an empty result string. */
  function Direct<S>(impl: (S, Call) -> (S, Outcome), s: S, calls: seq<Call>): (S, seq<Outcome>) {
    if calls == [] then (s, [])
    else
      var (t, outs) := Direct(impl, s, calls[..|calls| - 1]);
      var c := calls[|calls| - 1];
      var (u, o) := impl(t, Fresh(c));
      (u, outs + [Seen(c, o)])
  }

  /** Calls made directly on a service, with the result strings as the callers left them. */
  function Local<S>(impl: (S, Call) -> (S, Outcome), s: S, calls: seq<Call>): (S, seq<Outcome>) {
    if calls == [] then (s, [])
    else
      var (t, outs) := Local(impl, s, calls[..|calls| - 1]);
      var c := calls[|calls| - 1];
      var (u, o) := impl(t, c);
      (u, outs + [Seen(c, o)])
  }

  predicate OutsEmpty(calls: seq<Call>) {
    forall i :: 0 <= i < |calls| && HasOut(calls[i]) ==> calls[i].out == []
  }

  lemma {:induction false} DirectIsLocal<S>(impl: (S, Call) -> (S, Outcome), s: S, calls: seq<Call>)
    requires OutsEmpty(calls)
    ensures Direct(impl, s, calls) == Local(impl, s, calls)
  {
    if calls != [] {
      DirectIsLocal(impl, s, calls[..|calls| - 1]);
      assert Fresh(calls[|calls| - 1]) == calls[|calls| - 1];
    }
  }

  /** A service that counts the calls it is given that equal c, result string included. */
  function Counting(c: Call): (int, Call) -> (int, Outcome) {
    (s: int, d: Call) => (if d == c then s + 1 else s, Outcome(0, []))
  }

  lemma {:induction false} CountingTells(calls: seq<Call>, c: Call)
    requires HasOut(c) && c.out != []
    ensures Direct(Counting(c), 0, calls).0 == 0
    ensures Local(Counting(c), 0, calls).0 >= if c in calls then 1 else 0
  {
    if calls != [] {
      CountingTells(calls[..|calls| - 1], c);
      assert calls == calls[..|calls| - 1] + [calls[|calls| - 1]];
    }
  }

  /** The proxy is transparent to every service exactly for calls whose result strings start empty. */
  lemma {:induction false} TransparentIff(calls: seq<Call>)
    ensures (forall impl: (int, Call) -> (int, Outcome) :: Direct(impl, 0, calls) == Local(impl, 0, calls)) <==>
            OutsEmpty(calls)
  {
    if OutsEmpty(calls) {
      forall impl: (int, Call) -> (int, Outcome) ensures Direct(impl, 0, calls) == Local(impl, 0, calls) {
        DirectIsLocal(impl, 0, calls);
      }
    } else {
      var i :| 0 <= i < |calls| && HasOut(calls[i]) && calls[i].out != [];
      CountingTells(calls, calls[i]);
    }
  }

  /**
   What the service does with a result string: a node or property read assigns it, systemCall appends to it, and
   whatever is refused or fails leaves it as it was.
   */
  datatype Effect = Assigns(text: String8) | Appends(text: String8) | Leaves

  /** What is appended fits into a string. */
  predicate Fits(e: Effect, out: String8) {
    e.Appends? ==> |out| + |e.text| < 0x7FFF_FFFF
  }

  function Affected(e: Effect, out: String8): String8 {
    match e
    case Assigns(text) => text
    case Appends(text) => if Fits(e, out) then out + text else out
    case Leaves => out
  }

  /** A service decides its new state, its return code and its effect by its state and the call's arguments. */
  datatype Service<!S> = Service(decide: (S, Call) -> (S, Int32, Effect))

  function Serving<S>(v: Service<S>): (S, Call) -> (S, Outcome) {
    (s: S, c: Call) => Serve(v, s, c)
  }

  function Serve<S>(v: Service<S>, s: S, c: Call): (S, Outcome) {
    var (t, ret, e) := v.decide(s, Fresh(c));
    (t, Outcome(ret, if HasOut(c) then Affected(e, c.out) else []))
  }

  /** The service's state after the calls; no result string has a part in it. */
  function StateAfter<S>(v: Service<S>, s: S, calls: seq<Call>): S {
    if calls == [] then s
    else v.decide(StateAfter(v, s, calls[..|calls| - 1]), Fresh(calls[|calls| - 1])).0
  }

  function EffectAt<S>(v: Service<S>, s: S, calls: seq<Call>, i: nat): Effect
    requires i < |calls|
  {
    v.decide(StateAfter(v, s, calls[..i]), Fresh(calls[i])).2
  }

  predicate AllFit<S>(v: Service<S>, s: S, calls: seq<Call>) {
    forall i :: 0 <= i < |calls| && HasOut(calls[i]) ==> Fits(EffectAt(v, s, calls, i), calls[i].out)
  }

  /** Every call that may return a string assigns it, or was made with an empty one. */
  predicate Blind<S>(v: Service<S>, s: S, calls: seq<Call>) {
    forall i :: 0 <= i < |calls| && HasOut(calls[i]) ==> EffectAt(v, s, calls, i).Assigns? || calls[i].out == []
  }

  /**
   For every service that works like this one, from every state: a sequence of calls is the same through the proxy
   as made locally exactly when each of them assigns its result string or was given an empty one. The state is always
   the same.
   */
  lemma {:induction false} EffectIff<S>(v: Service<S>, s: S, calls: seq<Call>)
    requires AllFit(v, s, calls)
    ensures Direct(Serving(v), s, calls).0 == Local(Serving(v), s, calls).0 == StateAfter(v, s, calls)
    ensures |Direct(Serving(v), s, calls).1| == |Local(Serving(v), s, calls).1| == |calls|
    ensures Direct(Serving(v), s, calls) == Local(Serving(v), s, calls) <==> Blind(v, s, calls)
  {
    if calls != [] {
      var front, c := calls[..|calls| - 1], calls[|calls| - 1];
      EffectsOfFront(v, s, calls);
      EffectIff(v, s, front);
      var t := StateAfter(v, s, front);
      var (u, ret, e) := v.decide(t, Fresh(c));
      assert Serving(v)(t, Fresh(c)) == Serve(v, t, Fresh(c)) && Serving(v)(t, c) == Serve(v, t, c);
      assert e == EffectAt(v, s, calls, |calls| - 1);
      if HasOut(c) {
        AffectedAlikeIff(e, c.out);
      }
      SameLast(Direct(Serving(v), s, front).1, Seen(c, Serve(v, t, Fresh(c)).1),
               Local(Serving(v), s, front).1, Seen(c, Serve(v, t, c).1));
    }
  }

  lemma {:induction false} SameLast(a: seq<Outcome>, x: Outcome, b: seq<Outcome>, y: Outcome)
    requires |a| == |b|
    ensures a + [x] == b + [y] <==> a == b && x == y
  {
    if a + [x] == b + [y] {
      assert (a + [x])[..|a|] == a && (b + [y])[..|b|] == b;
      assert (a + [x])[|a|] == x && (b + [y])[|b|] == y;
    }
  }

  lemma {:induction false} EffectsOfFront<S>(v: Service<S>, s: S, calls: seq<Call>)
    requires calls != []
    ensures var front, n := calls[..|calls| - 1], |calls| - 1;
            && (forall i :: 0 <= i < n ==> EffectAt(v, s, front, i) == EffectAt(v, s, calls, i))
            && (AllFit(v, s, calls) ==> AllFit(v, s, front))
            && (Blind(v, s, calls) <==>
                Blind(v, s, front) && (HasOut(calls[n]) ==> EffectAt(v, s, calls, n).Assigns? || calls[n].out == []))
  {
    var front := calls[..|calls| - 1];
    forall i | 0 <= i < |front| ensures EffectAt(v, s, front, i) == EffectAt(v, s, calls, i) && front[i] == calls[i] {
      assert front[..i] == calls[..i];
    }
  }

  lemma {:induction false} AffectedAlikeIff(e: Effect, out: String8)
    requires Fits(e, out)
    ensures Affected(e, []) == Affected(e, out) <==> e.Assigns? || out == []
  {
    if e.Appends? {
      assert |Affected(e, [])| == |e.text| && |Affected(e, out)| == |out| + |e.text|;
    }
  }

  /** C++ leaves the order of the three argument reads of the scheduler call open: a, b and c say which comes when. */
  predicate IsOrder(a: nat, b: nat, c: nat) {
    a < 3 && b < 3 && c < 3 && a != b && b != c && a != c
  }

  function Pick(first: Int32, second: Int32, third: Int32, k: nat): Int32 {
    if k == 0 then first else if k == 1 then second else third
  }

  /** tid is read a-th, policy b-th and pri c-th, counting from 0. */
  function ReadInOrder(d: seq<Byte>, p: nat, a: nat, b: nat, c: nat): Call {
    var (x, y, z, _) := TakeInts(d, p);
    SetThreadScheduler(Pick(x, y, z, a), Pick(x, y, z, b), Pick(x, y, z, c))
  }

  lemma {:induction false} OrderGives(call: Call, a: nat, b: nat, c: nat)
    requires call.SetThreadScheduler? && IsOrder(a, b, c)
    ensures var got := ReadInOrder(Request(call), |EncodeString(DESCRIPTOR)|, a, b, c);
            && got.tid == Pick(call.tid, call.policy, call.pri, a)
            && got.policy == Pick(call.tid, call.policy, call.pri, b)
            && got.pri == Pick(call.tid, call.policy, call.pri, c)
  {
    ThreeInts(EncodeString(DESCRIPTOR), call.tid, call.policy, call.pri);
  }

  /** Read in the order written every call comes out right; every other order gets some call wrong. */
  lemma {:induction false} OrderIff(a: nat, b: nat, c: nat)
    requires IsOrder(a, b, c)
    ensures (forall call: Call | call.SetThreadScheduler? ::
               ReadInOrder(Request(call), |EncodeString(DESCRIPTOR)|, a, b, c) == call) <==>
            a == 0 && b == 1 && c == 2
  {
    forall call: Call | call.SetThreadScheduler? && a == 0 && b == 1 && c == 2
      ensures ReadInOrder(Request(call), |EncodeString(DESCRIPTOR)|, a, b, c) == call
    {
      OrderGives(call, a, b, c);
    }
    if !(a == 0 && b == 1 && c == 2) {
      OrderGives(SetThreadScheduler(0, 1, 2), a, b, c);
    }
  }

  /** A call comes out right in all six orders exactly when its three arguments are equal. */
  lemma {:induction false} AllOrdersIff(call: Call)
    requires call.SetThreadScheduler?
    ensures (forall a, b, c | IsOrder(a, b, c) ::
               ReadInOrder(Request(call), |EncodeString(DESCRIPTOR)|, a, b, c) == call) <==>
            call.tid == call.policy == call.pri
  {
    if call.tid == call.policy == call.pri {
      forall a, b, c | IsOrder(a, b, c)
        ensures ReadInOrder(Request(call), |EncodeString(DESCRIPTOR)|, a, b, c) == call
      {
        OrderGives(call, a, b, c);
      }
    } else {
      assert IsOrder(1, 2, 0);
      OrderGives(call, 1, 2, 0);
    }
  }

  /** Read right to left, as a compiler may well do, the call comes out right only when tid and pri are equal. */
  lemma {:induction false} BackwardsIff(call: Call)
    requires call.SetThreadScheduler?
    ensures ReadInOrder(Request(call), |EncodeString(DESCRIPTOR)|, 2, 1, 0) == call <==> call.tid == call.pri
  {
    OrderGives(call, 2, 1, 0);
  }
}
