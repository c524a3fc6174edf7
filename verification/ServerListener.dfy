/**
 The server object and its select loop, as written: watch set and bound, the nfds == 1 shortcuts, the list
 of quitters, the search that erases them. Every iteration is proved to be one Round.
 */
module ServerListener {
  import opened SdkDatabase
  import opened XmlDatabase
  import opened Kernel
  import opened ClientConnector
  import opened ServerRounds

  /** How the preparation before the loop comes out: the pipe and listen calls may fail. */
  datatype Startup = PipeFails | ListenFails | Listening(wakeup: int, listen: int)

  ghost function Conns(connectors: seq<ClientConnector>): (r: seq<Conn>)
    ensures |r| == |connectors|
    ensures forall i :: 0 <= i < |r| ==> r[i] == Conn(connectors[i].mConnID, connectors[i].ident)
  {
    seq(|connectors|, i requires 0 <= i < |connectors| => Conn(connectors[i].mConnID, connectors[i].ident))
  }

  function FdSeq(conns: seq<Conn>): (r: seq<int>)
    ensures |r| == |conns|
  {
    if conns == [] then [] else FdSeq(conns[..|conns| - 1]) + [conns[|conns| - 1].fd]
  }

  lemma {:induction false} FdSeqAt(conns: seq<Conn>, i: nat)
    requires i < |conns|
    ensures FdSeq(conns)[i] == conns[i].fd
  {
    if i < |conns| - 1 {
      FdSeqAt(conns[..|conns| - 1], i);
    }
  }

  class ServerListener {
    var mConnectors: seq<ClientConnector>
    const mXmlData: XmlDatabase

    ghost predicate Valid()
      reads this
    {
      forall c :: c in mConnectors ==> c.mDB == mXmlData
    }

    /** The constructor loads the two documents, svrinfo.xml then lvrinfo.xml. */
    constructor (svrinfo: Document, lvrinfo: Document)
      ensures Valid() && mConnectors == []
      ensures mXmlData.Valid() && mXmlData.Model() == ParseAll([svrinfo, lvrinfo])
    {
      mConnectors := [];
      mXmlData := new XmlDatabase();
      new;
      ghost var docs := [svrinfo, lvrinfo];
      assert mXmlData.Model() == ParseAll([]);
      var _ := mXmlData.Parser(svrinfo);
      assert docs[..1][..0] == [] && docs[..1][0] == svrinfo;
      assert mXmlData.Model() == ParseAll(docs[..1]);
      var _ := mXmlData.Parser(lvrinfo);
      assert docs[..2] == docs;
    }

    method AddConnector(confd: int, ghost ident: nat) returns (ret: int)
      requires Valid()
      modifies this`mConnectors
      ensures Valid()
      ensures if confd in old(Fds(Conns(mConnectors))) then ret == -1 && mConnectors == old(mConnectors)
              else ret == 0 && Conns(mConnectors) == old(Conns(mConnectors)) + [Conn(confd, ident)]
    {
      var i := 0;
      while i < |mConnectors|
        invariant 0 <= i <= |mConnectors|
        invariant forall k :: 0 <= k < i ==> mConnectors[k].mConnID != confd
      {
        if mConnectors[i].mConnID == confd {
          assert Conns(mConnectors)[i] in Conns(mConnectors);
          return -1;
        }
        i := i + 1;
      }
      var cc := new ClientConnector(confd, mXmlData, ident);
      mConnectors := mConnectors + [cc];
      ret := 0;
    }

    method DelConnector(confd: int) returns (ret: int)
      requires Valid()
      modifies this`mConnectors
      ensures Valid() && ret == 0
      ensures Conns(mConnectors) == EraseFirst(old(Conns(mConnectors)), confd)
    {
      var i := 0;
      ghost var conns := Conns(mConnectors);
      while i < |mConnectors|
        invariant 0 <= i <= |mConnectors|
        invariant mConnectors == old(mConnectors)
        invariant EraseFirst(conns, confd) == conns[..i] + EraseFirst(conns[i..], confd)
      {
        EraseNext(conns, i, confd);
        if mConnectors[i].mConnID == confd {
          ConnsErased(mConnectors, i);
          mConnectors := mConnectors[..i] + mConnectors[i + 1..];
          return 0;
        }
        i := i + 1;
      }
      ret := 0;
    }

    /** ServerListener.cpp, lines 109 to 118: the descriptors to watch and the largest of them. */
    method Prepare(wakeup: int, listen: int) returns (rset: set<int>, maxfd: int)
      requires forall i :: 0 <= i < |mConnectors| ==> mConnectors[i].mConnID > 0
      ensures rset == {wakeup, listen} + Fds(Conns(mConnectors))
      ensures maxfd in rset && forall fd :: fd in rset ==> fd <= maxfd
    {
      rset := {wakeup, listen};
      maxfd := if wakeup > listen then wakeup else listen;
      var i := 0;
      while i < |mConnectors|
        invariant 0 <= i <= |mConnectors|
        invariant rset == {wakeup, listen} + Fds(Conns(mConnectors)[..i])
        invariant maxfd in rset && forall fd :: fd in rset ==> fd <= maxfd
      {
        var ret;
        ret, rset := mConnectors[i].PreSelect(rset);
        if ret > maxfd {
          maxfd := ret;
        }
        i := i + 1;
        assert Conns(mConnectors)[..i] == Conns(mConnectors)[..i - 1] + [Conns(mConnectors)[i - 1]];
      }
      assert Conns(mConnectors)[..i] == Conns(mConnectors);
    }

    method ServeOne(cc: ClientConnector, ready: set<int>, kernel: Kernel, ghost c: Conn, ghost db: seq<Sdk>)
      returns (ret: int)
      requires db == cc.mDB.Model() && c == Conn(cc.mConnID, cc.ident)
      requires c.fd > 0 && c.fd in kernel.files && kernel.files[c.fd] == c.id
      modifies kernel`trace
      ensures db == cc.mDB.Model()
      ensures kernel.trace == old(kernel.trace) + ServedOne(db, kernel.now, ready, c)
      ensures ret == RESULT_QUIT <==> Leaves(kernel.now, ready, c.fd)
    {
      ret := cc.PostSelect(ready, kernel);
    }

    /** One pass of that loop: serve connector i and note whether it quits. */
    method ServeNext(i: nat, ready: set<int>, kernel: Kernel, quitConns0: seq<int>, rQuit0: bool,
                     ghost c: Conn, ghost before: seq<Event>, ghost served: seq<Event>, ghost gone: seq<Conn>,
                     ghost db: seq<Sdk>)
      returns (quitConns: seq<int>, rQuit: bool)
      requires i < |mConnectors| && mConnectors[i].mDB.Model() == db && kernel.trace == before + served
      requires c == Conn(mConnectors[i].mConnID, mConnectors[i].ident)
      requires c.fd > 0 && c.fd in kernel.files && kernel.files[c.fd] == c.id
      requires quitConns0 == FdSeq(gone) && (rQuit0 <==> quitConns0 != [])
      modifies kernel`trace
      ensures mConnectors[i].mDB.Model() == db
      ensures kernel.trace == before + (served + ServedOne(db, kernel.now, ready, c))
      ensures quitConns == FdSeq(if Leaves(kernel.now, ready, c.fd) then gone + [c] else gone)
      ensures rQuit <==> quitConns != []
    {
      quitConns, rQuit := quitConns0, rQuit0;
      Regroup(before, served, ServedOne(db, kernel.now, ready, c));
      var ret := ServeOne(mConnectors[i], ready, kernel, c, db);
      if ret == RESULT_QUIT {
        FdSeqNext(gone, c);
        quitConns := quitConns + [mConnectors[i].mConnID];
        if !rQuit {
          rQuit := true;
        }
      }
    }

    /** ServerListener.cpp, lines 144 to 151: serve the ready connectors in list order and note who quits. */
    method Serve(ready: set<int>, kernel: Kernel, quitConns0: seq<int>, rQuit0: bool, ghost db: seq<Sdk>)
      returns (quitConns: seq<int>, rQuit: bool)
      requires db == mXmlData.Model()
      requires Valid() && Backed(Conns(mConnectors), kernel.files) && quitConns0 == [] && !rQuit0
      modifies kernel`trace
      ensures var conns := Conns(mConnectors);
              && kernel.trace == old(kernel.trace) + Served(db, kernel.now, ready, conns)
              && quitConns == FdSeq(Leaving(kernel.now, ready, conns))
              && (rQuit <==> quitConns != [])
    {
      quitConns, rQuit := quitConns0, rQuit0;
      ghost var conns, now, before := Conns(mConnectors), kernel.now, kernel.trace;
      ghost var served: seq<Event>, gone: seq<Conn> := [], [];
      var i := 0;
      assert before + served == before;
      while i < |mConnectors|
        invariant 0 <= i <= |mConnectors|
        invariant db == mXmlData.Model()
        invariant kernel.trace == before + served
        invariant ServedSoFar(db, now, ready, conns, i, served, gone)
        invariant quitConns == FdSeq(gone)
        invariant rQuit <==> quitConns != []
      {
        ghost var c := conns[i];
        quitConns, rQuit := ServeNext(i, ready, kernel, quitConns, rQuit, c, before, served, gone, db);
        served, gone := ServedOneMore(db, now, ready, conns, i, served, gone);
        i := i + 1;
      }
      AllServed(db, now, ready, conns, served, gone);
    }

    /** One pass of the erasing loop. */
    method DropOne(fd: int, kernel: Kernel, ghost s: Server, ghost gone: seq<Conn>, ghost i: nat)
      requires Valid() && i < |gone| && fd == gone[i].fd && DroppedSoFar(State(kernel), s, gone, i)
      requires DistinctFds(s.conns) && DistinctFds(gone) && Backed(gone, s.world.files)
      modifies this`mConnectors, kernel`files, kernel`trace
      ensures Valid() && DroppedSoFar(State(kernel), s, gone, i + 1)
    {
      DropNext(s, gone, i);
      var _ := DelConnector(fd);
      kernel.Close(fd);
    }

    /** ServerListener.cpp, lines 153 to 157: delete and close each quitter, found again by its descriptor. */
    method Drop(quitConns: seq<int>, kernel: Kernel, ghost gone: seq<Conn>)
      requires Valid() && quitConns == FdSeq(gone)
      requires DistinctFds(Conns(mConnectors)) && Backed(gone, kernel.files) && DistinctFds(gone)
      modifies this`mConnectors, kernel`files, kernel`trace
      ensures Valid() && State(kernel) == DropAll(old(State(kernel)), gone)
    {
      var i := 0;
      ghost var s := State(kernel);
      DropNone(s);
      assert gone[..0] == [];
      while i < |quitConns|
        invariant 0 <= i <= |quitConns|
        invariant Valid()
        invariant DroppedSoFar(State(kernel), s, gone, i)
      {
        FdSeqAt(gone, i);
        DropOne(quitConns[i], kernel, s, gone, i);
        i := i + 1;
      }
      assert gone[..i] == gone;
    }

    ghost function State(kernel: Kernel): Server
      reads this, kernel
    {
      Server(Conns(mConnectors), kernel.Now())
    }

    /** ServerListener.cpp, lines 109 to 120: the bound handed to select covers every watched descriptor. */
    method SelectReady(kernel: Kernel, wakeup: int, listen: int, ghost env: Setup)
      returns (nfds: int, ready: set<int>, interrupted: bool)
      requires kernel.script != [] && env.wakeup == wakeup && env.listen == listen
      requires Backed(Conns(mConnectors), kernel.files)
      modifies kernel`script, kernel`now
      ensures kernel.now == old(kernel.script)[0] && kernel.script == old(kernel.script)[1..]
      ensures if kernel.now.select.Readable? then
                nfds == |ready| && ready == Ready(env, State(kernel), kernel.now)
              else
                nfds == -1 && (interrupted <==> kernel.now.select.Interrupted?)
    {
      var rset, maxfd := Prepare(wakeup, listen);
      nfds, ready, interrupted := kernel.Select(maxfd + 1, rset);
      if kernel.now.select.Readable? {
        assert rset == Watched(env, State(kernel).conns);
        assert forall fd :: fd in ready <==> fd in Ready(env, State(kernel), kernel.now);
      }
    }

    /** One pass through the body of the loop; more is false when it returns from run. */
    method Iterate(kernel: Kernel, wakeup: int, listen: int, quitConns0: seq<int>, rQuit0: bool, ghost env: Setup)
      returns (more: bool, quitConns: seq<int>, rQuit: bool)
      requires Valid() && kernel.script != [] && quitConns0 == [] && !rQuit0
      requires env == Setup(wakeup, listen, kernel.reserved, mXmlData.Model()) && env.Ok()
      requires Conserved(env, State(kernel))
      modifies this`mConnectors, kernel
      ensures Valid() && quitConns == [] && !rQuit
      ensures kernel.script == old(kernel.script)[1..] && kernel.now == old(kernel.script)[0]
      ensures more <==> !kernel.now.select.Failed?
      ensures State(kernel) == Round(env, old(State(kernel)), kernel.now)
    {
      quitConns, rQuit := quitConns0, rQuit0;
      ghost var s := State(kernel);
      var nfds, ready, interrupted := SelectReady(kernel, wakeup, listen, env);
      if nfds == -1 {
        RoundIdle(env, s, kernel.now);
        more := interrupted;
        return;
      }
      ghost var t, goal := RoundPlan(env, s, kernel.now);
      quitConns, rQuit := React(kernel, nfds, ready, wakeup, listen, quitConns, rQuit, env, t, goal, env.db);
      more := true;
    }

    /** ServerListener.cpp, lines 126 to 160: accepting leads to t, the whole to goal. */
    method React(kernel: Kernel, nfds: int, ready: set<int>, wakeup: int, listen: int,
                 quitConns0: seq<int>, rQuit0: bool, ghost env: Setup, ghost t: Server, ghost goal: Server,
                 ghost db: seq<Sdk>)
      returns (quitConns: seq<int>, rQuit: bool)
      requires Valid() && quitConns0 == [] && !rQuit0
      requires nfds == |ready| && wakeup != listen && env.reserved == kernel.reserved
      requires Acceptable(kernel.Now(), kernel.reserved, kernel.now.accept) ==>
                 kernel.now.accept !in Fds(Conns(mConnectors))
      requires t == if listen in ready then Admit(env, State(kernel), kernel.now) else State(kernel)
      requires Backed(t.conns, t.world.files) && DistinctFds(t.conns)
      requires ready == {wakeup} || ready == {listen} ==> goal == t
      requires db == mXmlData.Model()
      requires goal == DropAll(ServeAll(db, kernel.now, ready, t), Leaving(kernel.now, ready, t.conns))
      modifies this`mConnectors, kernel`files, kernel`next, kernel`trace
      ensures Valid() && quitConns == [] && !rQuit
      ensures State(kernel) == goal
    {
      quitConns, rQuit := quitConns0, rQuit0;
      var done := AcceptPhase(kernel, nfds, ready, wakeup, listen, env, t, db);
      if !done {
        quitConns, rQuit := ServeAndDrop(ready, kernel, quitConns, rQuit, t, goal, db);
      }
    }

    /** ServerListener.cpp, lines 126 to 142; done when one of the nfds == 1 shortcuts is taken. */
    method AcceptPhase(kernel: Kernel, nfds: int, ready: set<int>, wakeup: int, listen: int,
                       ghost env: Setup, ghost t: Server, ghost db: seq<Sdk>)
      returns (done: bool)
      requires db == mXmlData.Model()
      requires Valid() && nfds == |ready| && wakeup != listen && env.reserved == kernel.reserved
      requires Acceptable(kernel.Now(), kernel.reserved, kernel.now.accept) ==>
                 kernel.now.accept !in Fds(Conns(mConnectors))
      requires t == if listen in ready then Admit(env, State(kernel), kernel.now) else State(kernel)
      modifies this`mConnectors, kernel`files, kernel`next, kernel`trace
      ensures Valid() && State(kernel) == t && db == mXmlData.Model()
      ensures done ==> ready == {wakeup} || ready == {listen}
    {
      if wakeup in ready {
        if nfds == 1 {
          OnlyMember(ready, wakeup);
          return true;
        }
      }
      if listen in ready {
        AcceptOne(kernel, env);
        if nfds == 1 {
          OnlyMember(ready, listen);
          return true;
        }
      }
      done := false;
    }

    /** ServerListener.cpp, lines 133 to 139. */
    method AcceptOne(kernel: Kernel, ghost env: Setup)
      requires Valid() && env.reserved == kernel.reserved
      requires Acceptable(kernel.Now(), kernel.reserved, kernel.now.accept) ==>
                 kernel.now.accept !in Fds(Conns(mConnectors))
      modifies this`mConnectors, kernel`files, kernel`next, kernel`trace
      ensures Valid() && State(kernel) == Admit(env, old(State(kernel)), kernel.now)
    {
      ghost var s := State(kernel);
      var confd := kernel.Accept();
      if confd > 0 {
        var _ := AddConnector(confd, s.world.next);
      }
    }

    /** ServerListener.cpp, lines 144 to 160. */
    method ServeAndDrop(ready: set<int>, kernel: Kernel, quitConns0: seq<int>, rQuit0: bool, ghost t: Server,
                        ghost goal: Server, ghost db: seq<Sdk>)
      returns (quitConns: seq<int>, rQuit: bool)
      requires db == mXmlData.Model()
      requires Valid() && quitConns0 == [] && !rQuit0
      requires t == State(kernel) && Backed(t.conns, t.world.files) && DistinctFds(t.conns)
      requires goal == DropAll(ServeAll(db, kernel.now, ready, t), Leaving(kernel.now, ready, t.conns))
      modifies this`mConnectors, kernel`files, kernel`trace
      ensures Valid() && quitConns == [] && !rQuit
      ensures State(kernel) == goal
    {
      ghost var gone := Leaving(kernel.now, ready, t.conns);
      quitConns, rQuit := Serve(ready, kernel, quitConns0, rQuit0, db);
      LeavingDistinct(kernel.now, ready, t.conns);
      LeavingBacked(kernel.now, ready, t.conns, t.world.files);
      if rQuit {
        Drop(quitConns, kernel, gone);
        quitConns := [];
        rQuit := false;
      } else {
        assert gone == [];
        DropNone(State(kernel));
      }
    }

    /**
     The thread's work: give up without an SDK or a listening socket, else serve for ever. A script is what the
     environment has done so far, so the runs are the runs of all scripts.
     */
    method Run(kernel: Kernel, startup: Startup, ghost env: Setup)
      requires Valid() && mConnectors == []
      requires startup.Listening? ==>
                 env == Setup(startup.wakeup, startup.listen, kernel.reserved, mXmlData.Model()) && env.Ok()
      requires kernel.files == map[]
      modifies this`mConnectors, kernel
      ensures State(kernel) ==
              if mXmlData.Model() == [] || !startup.Listening? then old(State(kernel))
              else RunAll(env, old(State(kernel)), old(kernel.script))
    {
      if |mXmlData.mData| == 0 {
        return;
      }
      if startup.PipeFails? {
        return;
      }
      if startup.ListenFails? {
        return;
      }
      Loop(kernel, startup.wakeup, startup.listen, env);
    }

    /** ServerListener.cpp, lines 105 to 161: the loop, with its two variables. */
    method Loop(kernel: Kernel, wakeup: int, listen: int, ghost env: Setup)
      requires Valid() && env == Setup(wakeup, listen, kernel.reserved, mXmlData.Model()) && env.Ok()
      requires Conserved(env, State(kernel))
      modifies this`mConnectors, kernel
      ensures State(kernel) == RunAll(env, old(State(kernel)), old(kernel.script))
    {
      var quitConns: seq<int>, rQuit := [], false;
      ghost var goal := RunAll(env, State(kernel), kernel.script);
      while kernel.script != []
        invariant Valid() && quitConns == [] && !rQuit
        invariant env == Setup(wakeup, listen, kernel.reserved, mXmlData.Model())
        invariant Conserved(env, State(kernel))
        invariant RunAll(env, State(kernel), kernel.script) == goal
        decreases |kernel.script|
      {
        RunAllNext(env, State(kernel), kernel.script);
        RoundKeepsConserved(env, State(kernel), kernel.script[0]);
        var more;
        more, quitConns, rQuit := Iterate(kernel, wakeup, listen, quitConns, rQuit, env);
        if !more {
          return;
        }
      }
    }
  }

  lemma {:induction false} ConnsErased(connectors: seq<ClientConnector>, i: nat)
    requires i < |connectors|
    ensures Conns(connectors[..i] + connectors[i + 1..]) == Conns(connectors)[..i] + Conns(connectors)[i + 1..]
  {
  }

  lemma {:induction false} EraseNext(conns: seq<Conn>, i: nat, fd: int)
    requires i < |conns| && EraseFirst(conns, fd) == conns[..i] + EraseFirst(conns[i..], fd)
    ensures conns[i].fd == fd ==> EraseFirst(conns, fd) == conns[..i] + conns[i + 1..]
    ensures conns[i].fd != fd ==> EraseFirst(conns, fd) == conns[..i + 1] + EraseFirst(conns[i + 1..], fd)
  {
    assert conns[i..][1..] == conns[i + 1..];
    assert conns[..i] + [conns[i]] == conns[..i + 1];
  }

  lemma {:induction false} ServedNext(db: seq<Sdk>, now: RoundInput, ready: set<int>, conns: seq<Conn>, i: nat)
    requires i < |conns|
    ensures Served(db, now, ready, conns[..i + 1]) ==
            Served(db, now, ready, conns[..i]) + ServedOne(db, now, ready, conns[i])
    ensures Leaving(now, ready, conns[..i + 1]) ==
            if Leaves(now, ready, conns[i].fd) then Leaving(now, ready, conns[..i]) + [conns[i]]
            else Leaving(now, ready, conns[..i])
  {
    assert conns[..i + 1][..i] == conns[..i];
    var before := Leaving(now, ready, conns[..i]);
    assert before + [] == before;
  }

  /** What serving the first i connections gives. */
  predicate ServedSoFar(db: seq<Sdk>, now: RoundInput, ready: set<int>, conns: seq<Conn>, i: nat,
                        served: seq<Event>, gone: seq<Conn>)
    requires i <= |conns|
  {
    served == Served(db, now, ready, conns[..i]) && gone == Leaving(now, ready, conns[..i])
  }

  lemma {:induction false} ServedOneMore(db: seq<Sdk>, now: RoundInput, ready: set<int>, conns: seq<Conn>, i: nat,
                                         served: seq<Event>, gone: seq<Conn>)
    returns (more: seq<Event>, left: seq<Conn>)
    requires i < |conns| && ServedSoFar(db, now, ready, conns, i, served, gone)
    ensures more == served + ServedOne(db, now, ready, conns[i])
    ensures left == if Leaves(now, ready, conns[i].fd) then gone + [conns[i]] else gone
    ensures ServedSoFar(db, now, ready, conns, i + 1, more, left)
  {
    ServedNext(db, now, ready, conns, i);
    more := served + ServedOne(db, now, ready, conns[i]);
    left := if Leaves(now, ready, conns[i].fd) then gone + [conns[i]] else gone;
  }

  lemma {:induction false} AllServed(db: seq<Sdk>, now: RoundInput, ready: set<int>, conns: seq<Conn>,
                                     served: seq<Event>, gone: seq<Conn>)
    requires ServedSoFar(db, now, ready, conns, |conns|, served, gone)
    ensures served == Served(db, now, ready, conns) && gone == Leaving(now, ready, conns)
  {
    assert conns[..|conns|] == conns;
  }

  /** t is s without its first i quitters. */
  predicate DroppedSoFar(t: Server, s: Server, gone: seq<Conn>, i: nat)
    requires i <= |gone|
  {
    t == DropAll(s, gone[..i])
  }

  lemma {:induction false} FdSeqNext(conns: seq<Conn>, c: Conn)
    ensures FdSeq(conns + [c]) == FdSeq(conns) + [c.fd]
  {
    assert (conns + [c])[..|conns|] == conns;
  }

  lemma {:induction false} DropNone(s: Server)
    ensures DropAll(s, []) == s
  {
    WithoutNone(s.conns, {});
    assert Fds([]) == {} && Closings([]) == [];
    assert s.world.trace + [] == s.world.trace;
    assert s.world.files - {} == s.world.files;
  }

  lemma {:induction false} FdsNext(gone: seq<Conn>, i: nat)
    requires i < |gone| && DistinctFds(gone)
    ensures Fds(gone[..i + 1]) == Fds(gone[..i]) + {gone[i].fd}
    ensures gone[i].fd !in Fds(gone[..i])
  {
    assert gone[..i + 1] == gone[..i] + [gone[i]];
    DistinctPrefix(gone, i + 1);
    assert gone[..i + 1][..i] == gone[..i];
  }

  /** One more quitter: its first listed entry goes, its own connection is closed. */
  lemma {:induction false} DropNext(s: Server, gone: seq<Conn>, i: nat)
    requires i < |gone| && DistinctFds(gone) && DistinctFds(s.conns) && Backed(gone, s.world.files)
    ensures var t, c := DropAll(s, gone[..i]), gone[i];
            && c.fd in t.world.files && t.world.files[c.fd] == c.id
            && DropAll(s, gone[..i + 1]) ==
               Server(EraseFirst(t.conns, c.fd),
                      World(t.world.files - {c.fd}, t.world.next, t.world.trace + [Event(c.id, Closed)]))
  {
    var before, c := Fds(gone[..i]), gone[i];
    assert c in gone;
    FdsNext(gone, i);
    WithoutNext(s.conns, before, c.fd);
    assert gone[..i + 1][..i] == gone[..i];
    assert Closings(gone[..i + 1]) == Closings(gone[..i]) + [Event(c.id, Closed)];
    assert s.world.files - (before + {c.fd}) == s.world.files - before - {c.fd};
  }

  lemma {:induction false} WithoutNext(conns: seq<Conn>, before: set<int>, fd: int)
    requires DistinctFds(conns)
    ensures Without(conns, before + {fd}) == EraseFirst(Without(conns, before), fd)
  {
    WithoutDistinct(conns, before);
    EraseFirstIsWithout(Without(conns, before), fd);
    WithoutWithout(conns, before, {fd});
  }

  lemma {:induction false} OnlyMember(s: set<int>, x: int)
    requires x in s && |s| == 1
    ensures s == {x}
  {
    forall y | y in s ensures y == x {
      assert |s - {x}| == 0;
    }
  }

  /** The two states an iteration passes through, as React needs to know them. */
  lemma {:induction false} RoundPlan(env: Setup, s: Server, now: RoundInput) returns (t: Server, goal: Server)
    requires Conserved(env, s) && env.Ok()
    ensures goal == Round(env, s, now)
    ensures Acceptable(s.world, env.reserved, now.accept) ==> now.accept !in Fds(s.conns)
    ensures t == if env.listen in Ready(env, s, now) then Admit(env, s, now) else s
    ensures Backed(t.conns, t.world.files) && DistinctFds(t.conns)
    ensures Ready(env, s, now) == {env.wakeup} || Ready(env, s, now) == {env.listen} ==> goal == t
    ensures var ready := Ready(env, s, now);
            goal == DropAll(ServeAll(env.db, now, ready, t), Leaving(now, ready, t.conns))
  {
    t, goal := Admitted(env, s, now), Round(env, s, now);
    RoundCases(env, s, now);
    AdmitKeepsConserved(env, s, now);
    ListedIsOpen(s.conns, s.world.files);
  }

  lemma {:induction false} ListedIsOpen(conns: seq<Conn>, files: map<int, nat>)
    requires Backed(conns, files)
    ensures forall fd :: fd in Fds(conns) ==> fd in files
  {
    forall fd | fd in Fds(conns) ensures fd in files {
      var c :| c in conns && c.fd == fd;
      var i :| 0 <= i < |conns| && conns[i] == c;
    }
  }
}
