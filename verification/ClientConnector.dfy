/**
 One client connection: a read, the answer composed in a 65-byte buffer, a write.
 */
module ClientConnector {
  import opened CStrings
  import opened SdkDatabase
  import opened XmlDatabase
  import opened ClientProtocol
  import opened Kernel

  const RESULT_ERR := -1
  const RESULT_OK := 0
  const RESULT_QUIT := 1

  /** The read after which a connection is dropped. */
  predicate Quits(r: ReadResult) {
    r.Eof? || (r.Data? && IsQuit(CString(r.bytes)))
  }

  /** What ends a connection: end of stream, or data that begins with "quit". */
  predicate Ending(r: ReadResult) {
    r.Eof? || (r.Data? && |r.bytes| >= 4 && r.bytes[..4] == "quit")
  }

  lemma {:induction false} QuitsIff(r: ReadResult)
    ensures Quits(r) <==> Ending(r)
  {
    if r.Data? {
      var s := CString(r.bytes);
      if Take(s, 4) == "quit" {
        assert |Take(s, 4)| == 4 && r.bytes[..4] == s[..4];
      }
      if |r.bytes| >= 4 && r.bytes[..4] == "quit" {
        assert r.bytes[0] == 'q' && r.bytes[1] == 'u' && r.bytes[2] == 'i' && r.bytes[3] == 't';
        assert |s| >= 4;
        assert s[..4] == r.bytes[..4];
      }
      assert Take("quit", 4) == "quit";
    }
  }

  /** All that one read leads to on its connection. */
  function Turn(db: seq<Sdk>, r: ReadResult): seq<Action> {
    if r.Data? && !Quits(r) then [Received(r), Sent(Response(db, CString(r.bytes)))] else [Received(r)]
  }

  /** An answer as processMessage hands it over: a code, or 0 and the text in the buffer. */
  ghost predicate Delivered(a: Answer, ret: int, text: Text) {
    match a
    case Refused(code) => ret == code && -3 <= code <= -1
    case Reply(t) => ret == 0 && text == t
  }

  function Stamp(id: nat, actions: seq<Action>): (r: seq<Event>)
    ensures |r| == |actions|
    ensures forall i :: 0 <= i < |r| ==> r[i] == Event(id, actions[i])
  {
    seq(|actions|, i requires 0 <= i < |actions| => Event(id, actions[i]))
  }

  /** A turn is the read and, unless it quits or fails, the response. */
  lemma {:induction false} StampTurn(id: nat, db: seq<Sdk>, r: ReadResult, before: seq<Event>)
    ensures var reply := if r.Data? && !Quits(r) then [Event(id, Sent(Response(db, CString(r.bytes))))] else [];
            (before + [Event(id, Received(r))]) + reply == before + Stamp(id, Turn(db, r))
  {
    var reply := if r.Data? && !Quits(r) then [Event(id, Sent(Response(db, CString(r.bytes))))] else [];
    Regroup(before, [Event(id, Received(r))], reply);
    assert Stamp(id, Turn(db, r)) == [Event(id, Received(r))] + reply;
  }

  lemma {:induction false} Regroup(a: seq<Event>, b: seq<Event>, c: seq<Event>)
    ensures a + b + c == a + (b + c)
  {
  }

  lemma {:induction false} CStringOfRequest(d: Packet, buffer: seq<char>)
    requires |buffer| == 65 && buffer[..|d|] == d
    requires forall i :: |d| <= i < 65 ==> buffer[i] == NUL
    ensures NUL in buffer && CString(buffer) == CString(d)
  {
    var s := CString(d);
    assert buffer[..|s|] == d[..|s|];
    CStringIs(buffer, s);
    if |d| < 65 {
      assert buffer[64] == NUL;
    } else {
      assert buffer == d;
    }
  }

  lemma {:induction false} CStringTail(buffer: seq<char>, k: nat)
    requires k <= |CString(buffer)|
    ensures CString(buffer[k..]) == CString(buffer)[k..]
  {
    var s := CString(buffer);
    assert buffer[k..][..|s| - k] == s[k..];
    CStringIs(buffer[k..], s[k..]);
  }

  /** strncpy: the text up to n characters, the rest of the n filled with NUL. */
  method StrNCpy(w: array<char>, s: Text, n: nat)
    requires n < w.Length && w[n] == NUL
    modifies w
    ensures CString(w[..]) == Take(s, n)
    ensures forall i :: n <= i < w.Length ==> w[i] == old(w[i])
  {
    forall i | 0 <= i < n {
      w[i] := if i < |s| then s[i] else NUL;
    }
    assert w[..|Take(s, n)|] == Take(s, n);
    CStringIs(w[..], Take(s, n));
  }

  /** sprintf of a text that fits with its terminator. */
  method SPrintf(w: array<char>, s: Text)
    requires |s| < w.Length
    modifies w
    ensures CString(w[..]) == s
  {
    forall i | 0 <= i <= |s| {
      w[i] := if i < |s| then s[i] else NUL;
    }
    assert w[..|s|] == s;
    CStringIs(w[..], s);
  }

  class ClientConnector {
    const mConnID: int
    const mDB: XmlDatabase
    /** Which connection mConnID stood for when it was accepted; no code reads it. */
    ghost const ident: nat

    constructor (connid: int, db: XmlDatabase, ghost ident: nat)
      ensures mConnID == connid && mDB == db && this.ident == ident
    {
      mConnID, mDB, this.ident := connid, db, ident;
    }

    method PreSelect(rset: set<int>) returns (ret: int, marked: set<int>)
      ensures ret == mConnID
      ensures marked == if mConnID > 0 then rset + {mConnID} else rset
    {
      marked := rset;
      if mConnID > 0 {
        marked := rset + {mConnID};
      }
      ret := mConnID;
    }

    method PostSelect(rset: set<int>, kernel: Kernel) returns (ret: int)
      modifies kernel`trace
      ensures mConnID < 0 || mConnID !in rset ==> ret == RESULT_ERR && kernel.trace == old(kernel.trace)
      ensures mConnID >= 0 && mConnID in rset && mConnID !in kernel.files ==>
                ret == RESULT_ERR && kernel.trace == old(kernel.trace) + [BadFd(mConnID)]
      ensures mConnID >= 0 && mConnID in rset && mConnID in kernel.files ==>
                var r := ReadOf(kernel.now, mConnID);
                && kernel.trace == old(kernel.trace) + Stamp(kernel.files[mConnID], Turn(mDB.Model(), r))
                && (ret == RESULT_QUIT <==> Quits(r)) && (ret == RESULT_QUIT <==> Ending(r))
                && (ret == RESULT_OK <==> |Turn(mDB.Model(), r)| == 2 && mConnID !in kernel.now.writeFails)
    {
      if mConnID < 0 || mConnID !in rset {
        return RESULT_ERR;
      }
      var rbuff := new char[BUFF_SIZE + 1](_ => NUL);
      var wbuff := new char[BUFF_SIZE + 1](_ => NUL);
      ghost var r, before := ReadOf(kernel.now, mConnID), kernel.trace;
      QuitsIff(r);
      var num := kernel.Read(mConnID, rbuff);
      if num < 0 {
        return RESULT_ERR;
      } else if num == 0 {
        return RESULT_QUIT;
      }
      CStringOfRequest(r.bytes, rbuff[..]);
      ret := Respond(rbuff, wbuff, kernel, r, before);
    }

    /** ClientConnector.cpp, lines 44 to 53: what follows a read that brought data. */
    method Respond(rbuff: array<char>, wbuff: array<char>, kernel: Kernel,
                   ghost r: ReadResult, ghost before: seq<Event>)
      returns (ret: int)
      requires rbuff.Length == wbuff.Length == BUFF_SIZE + 1 && rbuff != wbuff
      requires NUL in rbuff[..] && wbuff[BUFF_SIZE] == NUL
      requires r.Data? && CString(rbuff[..]) == CString(r.bytes) && mConnID in kernel.files
      requires kernel.trace == before + [Event(kernel.files[mConnID], Received(r))]
      modifies kernel`trace, wbuff
      ensures ret == if Quits(r) then RESULT_QUIT
                     else if mConnID in kernel.now.writeFails then RESULT_ERR else RESULT_OK
      ensures kernel.trace == before + Stamp(kernel.files[mConnID], Turn(mDB.Model(), r))
    {
      StampTurn(kernel.files[mConnID], mDB.Model(), r, before);
      if IsQuit(CString(rbuff[..])) {
        return RESULT_QUIT;
      }
      Compose(rbuff, wbuff);
      var num := kernel.Write(mConnID, CString(wbuff[..]));
      if num < 0 {
        return RESULT_ERR;
      }
      ret := RESULT_OK;
    }

    /** ClientConnector.cpp, lines 46 to 48: the answer, or the refusal's code in its place. */
    method Compose(r: array<char>, w: array<char>)
      requires r.Length == w.Length == BUFF_SIZE + 1 && r != w
      requires NUL in r[..] && w[BUFF_SIZE] == NUL
      modifies w
      ensures CString(w[..]) == Response(mDB.Model(), CString(r[..]))
    {
      var ret := ProcessMessage(r, w);
      if ret < 0 {
        DecimalLength(-ret, 1);
        SPrintf(w, "-" + Decimal(-ret));
      }
    }

    method ProcessMessage(r: array<char>, w: array<char>) returns (ret: int)
      requires r.Length == w.Length == BUFF_SIZE + 1 && r != w
      requires NUL in r[..] && w[BUFF_SIZE] == NUL
      modifies w
      ensures Delivered(Answered(mDB.Model(), CString(r[..])), ret, CString(w[..]))
    {
      var types, lvrVersion, svrVersion, lvrFeature, svrFeature := Compare(CString(r[..]), mDB.Model());
      if types {
        ret := ReplyTypes(w);
      } else if lvrVersion {
        ret := ReplyVersion("lvr", w);
      } else if svrVersion {
        ret := ReplyVersion("svr", w);
      } else if lvrFeature {
        ret := ReplyFeature("lvr", r, 12, w);
      } else if svrFeature {
        ret := ReplyFeature("svr", r, 12, w);
      } else {
        ret := -1;
      }
    }

    /** The five comparisons, and what they decide. */
    static method Compare(request: Text, ghost db: seq<Sdk>)
      returns (types: bool, lvrVersion: bool, svrVersion: bool, lvrFeature: bool, svrFeature: bool)
      ensures lvrFeature || svrFeature ==> |request| >= 12
      ensures Answered(db, request) ==
              if types then TypesAnswer(db)
              else if lvrVersion then VersionAnswer(db, "lvr")
              else if svrVersion then VersionAnswer(db, "svr")
              else if lvrFeature then FeatureAnswer(db, "lvr", From(request, 12))
              else if svrFeature then FeatureAnswer(db, "svr", From(request, 12))
              else Refused(-1)
    {
      types := StrNCaseEq(request, "support_sdks", 6);
      lvrVersion := StrNCaseEq(request, "lvr_sdk_version", 15);
      svrVersion := StrNCaseEq(request, "svr_sdk_version", 15);
      lvrFeature := StrNCaseEq(request, "lvr_feature:", 12);
      svrFeature := StrNCaseEq(request, "svr_feature:", 12);
      AnsweredCases(db, request);
    }

    method ReplyTypes(w: array<char>) returns (ret: int)
      requires w.Length == BUFF_SIZE + 1 && w[BUFF_SIZE] == NUL
      modifies w
      ensures Delivered(TypesAnswer(mDB.Model()), ret, CString(w[..]))
    {
      TypeNames(mDB.Model());
      var types := mDB.GetAllSDKTypes();
      if types == "" {
        return -2;
      }
      StrNCpy(w, types, BUFF_SIZE);
      ret := 0;
    }

    method ReplyVersion(family: Text, w: array<char>) returns (ret: int)
      requires w.Length == BUFF_SIZE + 1 && w[BUFF_SIZE] == NUL
      modifies w
      ensures Delivered(VersionAnswer(mDB.Model(), family), ret, CString(w[..]))
    {
      var sdk := mDB.GetSDK(family);
      if sdk == null {
        return -3;
      }
      var ver := sdk.mVersion;
      if ver == "" {
        return -2;
      }
      StrNCpy(w, ver, BUFF_SIZE);
      ret := 0;
    }

    /** The version asked for is the C string that starts at r + at. */
    method ReplyFeature(family: Text, r: array<char>, at: nat, w: array<char>) returns (ret: int)
      requires w.Length == BUFF_SIZE + 1 && r != w && at <= |CString(r[..])|
      modifies w
      ensures Delivered(FeatureAnswer(mDB.Model(), family, From(CString(r[..]), at)), ret, CString(w[..]))
    {
      CStringTail(r[..], at);
      assert r[..][at..] == r[at..];
      var sdk := mDB.GetSDK(family);
      if sdk == null {
        return -3;
      }
      var f := sdk.GetFeature(Some(CString(r[at..])));
      FeatureTextFits(f);
      SPrintf(w, Decimal(f));
      ret := 0;
    }
  }
}
