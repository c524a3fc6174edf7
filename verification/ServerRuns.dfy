/**
 Every run of the server, for every environment: what each connection sees depends on its own reads alone,
 and accepted descriptors are conserved.
 */
module ServerRuns {
  import opened CStrings
  import opened SdkDatabase
  import opened ClientProtocol
  import opened Kernel
  import opened ClientConnector
  import opened ServerRounds

  /** What happened to one connection. */
  function Project(trace: seq<Event>, id: nat): seq<Action> {
    if trace == [] then []
    else
      var e := trace[|trace| - 1];
      Project(trace[..|trace| - 1], id) + if e.Event? && e.id == id then [e.action] else []
  }

  function ReadsIn(actions: seq<Action>): seq<ReadResult> {
    if actions == [] then []
    else
      var a := actions[|actions| - 1];
      ReadsIn(actions[..|actions| - 1]) + if a.Received? then [a.r] else []
  }

  /** A server with a single client that makes these reads: answer each one until the first that quits. */
  function Session(db: seq<Sdk>, incoming: seq<ReadResult>): seq<Action> {
    if incoming == [] then []
    else if Quits(incoming[0]) then [Received(incoming[0]), Closed]
    else Turn(db, incoming[0]) + Session(db, incoming[1..])
  }

  predicate Stays(incoming: seq<ReadResult>) {
    forall i :: 0 <= i < |incoming| ==> !Quits(incoming[i])
  }

  lemma {:induction false} SessionAppend(db: seq<Sdk>, incoming: seq<ReadResult>, r: ReadResult)
    requires Stays(incoming)
    ensures Session(db, incoming + [r]) ==
            Session(db, incoming) + if Quits(r) then [Received(r), Closed] else Turn(db, r)
  {
    if incoming == [] {
      assert [r][1..] == [];
      assert Session(db, [r][1..]) == [];
      assert incoming + [r] == [r];
    } else {
      SessionAppend(db, incoming[1..], r);
      assert (incoming + [r])[1..] == incoming[1..] + [r];
    }
  }

  lemma {:induction false} ProjectConcat(a: seq<Event>, b: seq<Event>, id: nat)
    ensures Project(a + b, id) == Project(a, id) + Project(b, id)
  {
    if b == [] {
      assert a + b == a;
    } else {
      ProjectConcat(a, b[..|b| - 1], id);
      assert (a + b)[..|a + b| - 1] == a + b[..|b| - 1];
    }
  }

  lemma {:induction false} ReadsInConcat(a: seq<Action>, b: seq<Action>)
    ensures ReadsIn(a + b) == ReadsIn(a) + ReadsIn(b)
  {
    if b == [] {
      assert a + b == a;
    } else {
      ReadsInConcat(a, b[..|b| - 1]);
      assert (a + b)[..|a + b| - 1] == a + b[..|b| - 1];
    }
  }

  lemma {:induction false} ReadsInTurn(db: seq<Sdk>, r: ReadResult)
    ensures ReadsIn(Turn(db, r)) == [r] && ReadsIn([Received(r), Closed]) == [r] && ReadsIn([Closed]) == []
  {
    assert [Closed][..0] == [] && [Received(r)][..0] == [];
    assert ReadsIn([Received(r)]) == [r];
    assert [Received(r), Closed][..1] == [Received(r)];
    if r.Data? && !Quits(r) {
      var t := Turn(db, r);
      assert t[..1] == [Received(r)];
    }
  }

  lemma {:induction false} ProjectStamp(id: nat, actions: seq<Action>, of: nat)
    ensures Project(Stamp(id, actions), of) == if of == id then actions else []
  {
    if actions != [] {
      var front := actions[..|actions| - 1];
      ProjectStamp(id, front, of);
      assert Stamp(id, actions)[..|actions| - 1] == Stamp(id, front);
      assert front + [actions[|actions| - 1]] == actions;
    }
  }

  predicate HasId(conns: seq<Conn>, id: nat) {
    exists i :: 0 <= i < |conns| && conns[i].id == id
  }

  ghost predicate OneToOne(files: map<int, nat>) {
    forall fd, fe :: fd in files && fe in files && files[fd] == files[fe] ==> fd == fe
  }

  /** In a list of distinct backed connections, the last one's identity is nowhere before it. */
  lemma {:induction false} LastIdIsNew(conns: seq<Conn>, files: map<int, nat>)
    requires conns != [] && DistinctFds(conns) && Backed(conns, files) && OneToOne(files)
    ensures !HasId(conns[..|conns| - 1], conns[|conns| - 1].id)
  {
    var front, last := conns[..|conns| - 1], conns[|conns| - 1];
    forall i | 0 <= i < |front| ensures front[i].id != last.id {
      assert front[i] == conns[i] && front[i] in front;
      assert front[i].fd in Fds(front);
    }
  }

  lemma {:induction false} ServedStranger(db: seq<Sdk>, now: RoundInput, ready: set<int>, conns: seq<Conn>, id: nat)
    requires !HasId(conns, id)
    ensures Project(Served(db, now, ready, conns), id) == []
  {
    if conns != [] {
      var front, c := conns[..|conns| - 1], conns[|conns| - 1];
      assert forall i :: 0 <= i < |front| ==> front[i] == conns[i];
      ServedStranger(db, now, ready, front, id);
      ProjectConcat(Served(db, now, ready, front), ServedOne(db, now, ready, c), id);
      if c.fd in ready {
        ProjectStamp(c.id, Turn(db, ReadOf(now, c.fd)), id);
      }
    }
  }

  lemma {:induction false} ServedMember(db: seq<Sdk>, now: RoundInput, ready: set<int>, conns: seq<Conn>,
                                        files: map<int, nat>, k: nat)
    requires k < |conns| && DistinctFds(conns) && Backed(conns, files) && OneToOne(files)
    ensures Project(Served(db, now, ready, conns), conns[k].id) ==
            if conns[k].fd in ready then Turn(db, ReadOf(now, conns[k].fd)) else []
  {
    var front, c := conns[..|conns| - 1], conns[|conns| - 1];
    LastIdIsNew(conns, files);
    ProjectConcat(Served(db, now, ready, front), ServedOne(db, now, ready, c), conns[k].id);
    if c.fd in ready {
      ProjectStamp(c.id, Turn(db, ReadOf(now, c.fd)), conns[k].id);
    }
    if k == |front| {
      ServedStranger(db, now, ready, front, c.id);
    } else {
      ServedMember(db, now, ready, front, files, k);
      assert front[k] == conns[k];
      assert HasId(front, conns[k].id);
    }
  }

  lemma {:induction false} ClosingsLast(gone: seq<Conn>, id: nat)
    requires gone != []
    ensures Project(Closings(gone), id) ==
            Project(Closings(gone[..|gone| - 1]), id) + if gone[|gone| - 1].id == id then [Closed] else []
  {
    assert Closings(gone)[..|gone| - 1] == Closings(gone[..|gone| - 1]);
  }

  lemma {:induction false} ClosingsStranger(gone: seq<Conn>, id: nat)
    requires !HasId(gone, id)
    ensures Project(Closings(gone), id) == []
  {
    if gone != [] {
      ClosingsLast(gone, id);
      var front := gone[..|gone| - 1];
      assert forall i :: 0 <= i < |front| ==> front[i] == gone[i];
      ClosingsStranger(front, id);
    }
  }

  lemma {:induction false} ClosingsMember(gone: seq<Conn>, files: map<int, nat>, k: nat)
    requires k < |gone| && DistinctFds(gone) && Backed(gone, files) && OneToOne(files)
    ensures Project(Closings(gone), gone[k].id) == [Closed]
  {
    var front := gone[..|gone| - 1];
    LastIdIsNew(gone, files);
    ClosingsLast(gone, gone[k].id);
    if k == |front| {
      ClosingsStranger(front, gone[k].id);
    } else {
      ClosingsMember(front, files, k);
      assert front[k] == gone[k];
      assert HasId(front, gone[k].id);
    }
  }

  // The invariant of every run

  ghost predicate IsOpen(files: map<int, nat>, id: nat) {
    exists fd :: fd in files && files[fd] == id
  }

  /** One connection's story so far: opened, then the sequential session of its own reads, open until one quits. */
  ghost predicate Faithful(db: seq<Sdk>, w: World, id: nat) {
    var p := Project(w.trace, id);
    && p != []
    && p == [p[0]] + Session(db, ReadsIn(p))
    && p[0].Opened?
    && (if IsOpen(w.files, id) then Stays(ReadsIn(p)) && p[0].fd in w.files && w.files[p[0].fd] == id
        else !Stays(ReadsIn(p)))
  }

  predicate WellStamped(trace: seq<Event>, next: nat) {
    forall i :: 0 <= i < |trace| ==> trace[i].Event? && trace[i].id < next
  }

  ghost predicate Told(env: Setup, s: Server) {
    && Conserved(env, s)
    && WellStamped(s.world.trace, s.world.next)
    && forall id: nat :: id < s.world.next ==> Faithful(env.db, s.world, id)
  }

  const START := Server([], World(map[], 0, []))

  lemma {:induction false} ProjectFuture(trace: seq<Event>, next: nat, id: nat)
    requires WellStamped(trace, next) && id >= next
    ensures Project(trace, id) == []
  {
    if trace != [] {
      ProjectFuture(trace[..|trace| - 1], next, id);
    }
  }

  lemma {:induction false} ServedStamped(db: seq<Sdk>, now: RoundInput, ready: set<int>, conns: seq<Conn>, next: nat)
    requires forall i :: 0 <= i < |conns| ==> conns[i].id < next
    ensures WellStamped(Served(db, now, ready, conns), next)
  {
    if conns != [] {
      ServedStamped(db, now, ready, conns[..|conns| - 1], next);
    }
  }

  lemma {:induction false} AdmitTells(env: Setup, s: Server, now: RoundInput)
    requires Told(env, s)
    ensures Told(env, Admit(env, s, now))
  {
    AdmitKeepsConserved(env, s, now);
    if Acceptable(s.world, env.reserved, now.accept) {
      var w := Accepted(s.world, now.accept);
      forall id: nat | id < w.next ensures Faithful(env.db, w, id) {
        if id < s.world.next {
          assert Faithful(env.db, s.world, id);
          AcceptedOld(env.db, s.world, now.accept, id);
        } else {
          AcceptedNew(env.db, s.world, now.accept);
        }
      }
    }
  }

  lemma {:induction false} AcceptedOld(db: seq<Sdk>, w: World, fd: int, id: nat)
    requires fd !in w.files && id < w.next && Faithful(db, w, id)
    ensures Faithful(db, Accepted(w, fd), id)
  {
    assert Accepted(w, fd).trace[..|w.trace|] == w.trace;
    assert Project(Accepted(w, fd).trace, id) == Project(w.trace, id);
    StillOpen(w.files, Accepted(w, fd).files, fd, id);
  }

  lemma {:induction false} AcceptedNew(db: seq<Sdk>, w: World, fd: int)
    requires WellStamped(w.trace, w.next)
    ensures Faithful(db, Accepted(w, fd), w.next)
  {
    var t := Accepted(w, fd);
    assert t.trace[..|w.trace|] == w.trace;
    ProjectFuture(w.trace, w.next, w.next);
    var p := Project(t.trace, w.next);
    assert p == [Opened(fd)];
    assert p[..0] == [] && ReadsIn(p) == [];
    assert fd in t.files && t.files[fd] == w.next;
  }

  lemma {:induction false} StillOpen(files: map<int, nat>, grown: map<int, nat>, fd: int, id: nat)
    requires fd !in files && fd in grown && grown == files[fd := grown[fd]] && grown[fd] != id
    ensures IsOpen(grown, id) <==> IsOpen(files, id)
  {
    if IsOpen(files, id) {
      var fe :| fe in files && files[fe] == id;
      assert fe in grown && grown[fe] == id;
    }
  }

  /** The state after serving and dropping. */
  function Settled(env: Setup, t: Server, now: RoundInput, ready: set<int>): Server {
    DropAll(ServeAll(env.db, now, ready, t), Leaving(now, ready, t.conns))
  }

  function TurnOrLast(db: seq<Sdk>, r: ReadResult): seq<Action> {
    if Quits(r) then [Received(r), Closed] else Turn(db, r)
  }

  lemma {:induction false} ProjectRound(env: Setup, t: Server, now: RoundInput, ready: set<int>, id: nat)
    ensures Project(Settled(env, t, now, ready).world.trace, id) ==
            Project(t.world.trace, id) + Project(Served(env.db, now, ready, t.conns), id)
            + Project(Closings(Leaving(now, ready, t.conns)), id)
  {
    var served := Served(env.db, now, ready, t.conns);
    ProjectConcat(t.world.trace + served, Closings(Leaving(now, ready, t.conns)), id);
    ProjectConcat(t.world.trace, served, id);
  }

  lemma {:induction false} MemberLeaves(now: RoundInput, ready: set<int>, conns: seq<Conn>,
                                        files: map<int, nat>, k: nat)
    requires k < |conns| && Backed(conns, files) && OneToOne(files)
    ensures HasId(Leaving(now, ready, conns), conns[k].id) <==> Leaves(now, ready, conns[k].fd)
  {
    var c, gone := conns[k], Leaving(now, ready, conns);
    LeavingMembers(now, ready, conns);
    LeavingBacked(now, ready, conns, files);
    assert c in conns;
    if Leaves(now, ready, c.fd) {
      var i :| 0 <= i < |gone| && gone[i] == c;
    } else {
      forall j | 0 <= j < |gone| ensures gone[j].id != c.id {
        assert gone[j] in gone;
      }
    }
  }

  lemma {:induction false} MemberClosing(now: RoundInput, ready: set<int>, conns: seq<Conn>,
                                         files: map<int, nat>, k: nat)
    requires k < |conns| && DistinctFds(conns) && Backed(conns, files) && OneToOne(files)
    ensures Project(Closings(Leaving(now, ready, conns)), conns[k].id) ==
            if Leaves(now, ready, conns[k].fd) then [Closed] else []
  {
    var gone, id := Leaving(now, ready, conns), conns[k].id;
    MemberLeaves(now, ready, conns, files, k);
    if j :| 0 <= j < |gone| && gone[j].id == id {
      LeavingDistinct(now, ready, conns);
      LeavingBacked(now, ready, conns, files);
      ClosingsMember(gone, files, j);
    } else {
      ClosingsStranger(gone, id);
    }
  }

  /** A ready connection gains the turn of its read, and its closing when the read quits; the others nothing. */
  lemma {:induction false} MemberGains(env: Setup, t: Server, now: RoundInput, ready: set<int>, k: nat)
    requires k < |t.conns| && DistinctFds(t.conns) && Backed(t.conns, t.world.files) && OneToOne(t.world.files)
    ensures Project(Settled(env, t, now, ready).world.trace, t.conns[k].id) ==
            Project(t.world.trace, t.conns[k].id) +
            if t.conns[k].fd in ready then TurnOrLast(env.db, ReadOf(now, t.conns[k].fd)) else []
  {
    var c := t.conns[k];
    ProjectRound(env, t, now, ready, c.id);
    ServedMember(env.db, now, ready, t.conns, t.world.files, k);
    MemberClosing(now, ready, t.conns, t.world.files, k);
    JoinTurn(env.db, ReadOf(now, c.fd), Project(t.world.trace, c.id));
  }

  lemma {:induction false} JoinTurn(db: seq<Sdk>, r: ReadResult, p: seq<Action>)
    ensures p + Turn(db, r) + (if Quits(r) then [Closed] else []) == p + TurnOrLast(db, r)
    ensures p + [] + [] == p
  {
    if Quits(r) {
      assert Turn(db, r) + [Closed] == TurnOrLast(db, r);
    }
  }

  lemma {:induction false} StrangerGains(env: Setup, t: Server, now: RoundInput, ready: set<int>, id: nat)
    requires !HasId(t.conns, id)
    ensures Project(Settled(env, t, now, ready).world.trace, id) == Project(t.world.trace, id)
    ensures !HasId(Leaving(now, ready, t.conns), id)
  {
    var gone := Leaving(now, ready, t.conns);
    ProjectRound(env, t, now, ready, id);
    ServedStranger(env.db, now, ready, t.conns, id);
    LeavingMembers(now, ready, t.conns);
    forall j | 0 <= j < |gone| ensures gone[j].id != id {
      assert gone[j] in gone;
      var i :| 0 <= i < |t.conns| && t.conns[i] == gone[j];
    }
    ClosingsStranger(gone, id);
  }

  /** Who is open after the drop: all that were, except the connections that left. */
  lemma {:induction false} OpenAfterDrop(files: map<int, nat>, gone: seq<Conn>, id: nat)
    requires Backed(gone, files) && OneToOne(files)
    ensures IsOpen(files - Fds(gone), id) <==> IsOpen(files, id) && !HasId(gone, id)
  {
    if fd :| fd in files && files[fd] == id {
      if HasId(gone, id) {
        var i :| 0 <= i < |gone| && gone[i].id == id;
        assert gone[i] in gone && gone[i].fd == fd;
      } else {
        forall c | c in gone ensures c.fd != fd {
          var i :| 0 <= i < |gone| && gone[i] == c;
        }
        assert fd in files - Fds(gone) && (files - Fds(gone))[fd] == id;
      }
    }
  }

  lemma {:induction false} ServedFaithful(env: Setup, t: Server, now: RoundInput, ready: set<int>, id: nat)
    requires Told(env, t) && id < t.world.next
    ensures Faithful(env.db, Settled(env, t, now, ready).world, id)
  {
    var w, gone := t.world, Leaving(now, ready, t.conns);
    var p := Project(w.trace, id);
    assert Faithful(env.db, w, id);
    LeavingBacked(now, ready, t.conns, w.files);
    OpenAfterDrop(w.files, gone, id);
    if k :| 0 <= k < |t.conns| && t.conns[k].id == id {
      assert t.conns[k].fd in w.files && w.files[t.conns[k].fd] == id;
      MemberGains(env, t, now, ready, k);
      MemberLeaves(now, ready, t.conns, w.files, k);
      if t.conns[k].fd in ready {
        StoryGrows(env.db, p, ReadOf(now, t.conns[k].fd));
      } else {
        assert p + [] == p;
      }
    } else {
      StrangerGains(env, t, now, ready, id);
    }
  }

  /** One more read extends the sequential session by one more turn. */
  lemma {:induction false} StoryGrows(db: seq<Sdk>, p: seq<Action>, r: ReadResult)
    requires p != [] && p == [p[0]] + Session(db, ReadsIn(p)) && Stays(ReadsIn(p))
    ensures var q := p + TurnOrLast(db, r);
            && q != [] && q[0] == p[0]
            && q == [q[0]] + Session(db, ReadsIn(q))
            && (Stays(ReadsIn(q)) <==> !Quits(r))
  {
    var rs, rest, last := ReadsIn(p), Session(db, ReadsIn(p)), TurnOrLast(db, r);
    SessionAppend(db, rs, r);
    ReadsInTurn(db, r);
    ReadsInConcat(p, last);
    StaysAppend(rs, r);
    Prepended(p[0], rest, last);
  }

  lemma {:induction false} StaysAppend(rs: seq<ReadResult>, r: ReadResult)
    requires Stays(rs)
    ensures Stays(rs + [r]) <==> !Quits(r)
  {
    assert (rs + [r])[|rs|] == r;
  }

  lemma {:induction false} Prepended(a: Action, rest: seq<Action>, last: seq<Action>)
    ensures ([a] + rest) + last == [a] + (rest + last)
    ensures (([a] + rest) + last)[0] == a
  {
  }

  /** The invariant passes from each iteration to the next. */
  lemma {:induction false} RoundTells(env: Setup, s: Server, now: RoundInput)
    requires Told(env, s) && env.Ok()
    ensures Told(env, Round(env, s, now))
  {
    var t, ready := Admitted(env, s, now), Ready(env, s, now);
    AdmitTells(env, s, now);
    RoundServesNewList(env, s, now);
    RoundKeepsConserved(env, s, now);
    var r := Settled(env, t, now, ready);
    forall id: nat | id < r.world.next ensures Faithful(env.db, r.world, id) {
      ServedFaithful(env, t, now, ready, id);
    }
    StampedRound(env, t, now, ready);
  }

  lemma {:induction false} StampedRound(env: Setup, t: Server, now: RoundInput, ready: set<int>)
    requires Conserved(env, t) && WellStamped(t.world.trace, t.world.next)
    ensures WellStamped(Settled(env, t, now, ready).world.trace, t.world.next)
  {
    forall i | 0 <= i < |t.conns| ensures t.conns[i].id < t.world.next {
      assert t.conns[i].fd in t.world.files;
    }
    ServedStamped(env.db, now, ready, t.conns, t.world.next);
    var gone := Leaving(now, ready, t.conns);
    LeavingBacked(now, ready, t.conns, t.world.files);
    forall i | 0 <= i < |gone| ensures gone[i].id < t.world.next {
      assert gone[i].fd in t.world.files;
    }
  }

  lemma {:induction false} RunTells(env: Setup, s: Server, script: seq<RoundInput>)
    requires Told(env, s) && env.Ok()
    ensures Told(env, RunAll(env, s, script))
    decreases |script|
  {
    if script != [] && !script[0].select.Failed? {
      RoundTells(env, s, script[0]);
      RunTells(env, Round(env, s, script[0]), script[1..]);
    }
  }

  // Main results

  /**
   Interleaving independence and descriptor safety, for every environment: no call ever used a dead descriptor,
   and each connection ever accepted was answered exactly as a server with that one client would have answered
   its reads; it has been closed if and only if one of them quit.
   */
  lemma {:induction false} EveryRun(env: Setup, script: seq<RoundInput>, id: nat)
    requires env.Ok() && id < RunAll(env, START, script).world.next
    ensures var w := RunAll(env, START, script).world;
            && WellStamped(w.trace, w.next)
            && var p := Project(w.trace, id);
               && p != [] && p[0].Opened? && p[1..] == Session(env.db, ReadsIn(p))
               && (IsOpen(w.files, id) <==> Stays(ReadsIn(p)))
  {
    RunTells(env, START, script);
    var w := RunAll(env, START, script).world;
    assert Faithful(env.db, w, id);
    var p := Project(w.trace, id);
    assert p[1..] == Session(env.db, ReadsIn(p));
  }

  lemma {:induction false} SessionAnswers(db: seq<Sdk>, incoming: seq<ReadResult>, m: nat)
    requires m < |Session(db, incoming)| && Session(db, incoming)[m].Received?
    requires var r := Session(db, incoming)[m].r; r.Data? && !Quits(r)
    ensures var q := Session(db, incoming);
            m + 1 < |q| && q[m + 1] == Sent(Response(db, CString(q[m].r.bytes)))
  {
    var first := incoming[0];
    if !Quits(first) && m >= |Turn(db, first)| {
      SessionAnswers(db, incoming[1..], m - |Turn(db, first)|);
    }
  }

  /**
   The whole server, end to end: in any run of a server loaded with any documents, the answer sent to a client right
   after its feature request for a dot-free version is the number first registered for that version by the SDK of
   the earliest matching document, exactly up to 2^63 - 1.
   */
  lemma {:induction false} FeatureServed(env: Setup, docs: seq<Document>, script: seq<RoundInput>, id: nat, m: nat,
                                         k: Command, v: Text, tail: Text, n: nat)
    requires env.Ok() && env.db == ParseAll(docs) && id < RunAll(env, START, script).world.next
    requires var p := Project(RunAll(env, START, script).world.trace, id);
             && m < |p| && p[m].Received? && p[m].r.Data?
             && var r := CString(p[m].r.bytes); Guard(k, r) && GuardedArgument(k, r) == v + tail
    requires k in {LvrFeature, SvrFeature} && '.' !in v && (tail == "" || tail[0] == '.')
    requires FirstRegistered(docs, Family(k), v, n)
    ensures var p := Project(RunAll(env, START, script).world.trace, id);
            && m + 1 < |p| && p[m + 1].Sent? && AllDigits(p[m + 1].text)
            && DigitsValue(p[m + 1].text) == (if n <= LLONG_MAX then n else LLONG_MAX)
            && (DigitsValue(p[m + 1].text) == n <==> n <= LLONG_MAX)
  {
    EveryRun(env, script, id);
    var p := Project(RunAll(env, START, script).world.trace, id);
    AnsweredNext(env.db, p, m, k);
    FeatureRoundTrip(docs, k, v, tail, n, CString(p[m].r.bytes));
  }

  /** In a connection's story a command is followed at once by its response. */
  lemma {:induction false} AnsweredNext(db: seq<Sdk>, p: seq<Action>, m: nat, k: Command)
    requires p != [] && p[0].Opened? && p[1..] == Session(db, ReadsIn(p))
    requires m < |p| && p[m].Received? && p[m].r.Data? && Guard(k, CString(p[m].r.bytes))
    ensures m + 1 < |p| && p[m + 1] == Sent(Response(db, CString(p[m].r.bytes)))
  {
    GuardsExclusive(k, k, CString(p[m].r.bytes));
    assert p[1..][m - 1] == p[m];
    SessionAnswers(db, ReadsIn(p), m - 1);
    assert p[m + 1] == p[1..][m];
  }

  /** Two clients, of any two runs, that sent the same saw the same. */
  lemma {:induction false} SameReadsSameSession(envA: Setup, a: seq<RoundInput>, i: nat,
                                                envB: Setup, b: seq<RoundInput>, j: nat)
    requires envA.Ok() && envB.Ok() && envA.db == envB.db
    requires i < RunAll(envA, START, a).world.next && j < RunAll(envB, START, b).world.next
    requires ReadsIn(Project(RunAll(envA, START, a).world.trace, i)) ==
             ReadsIn(Project(RunAll(envB, START, b).world.trace, j))
    ensures var p, q := Project(RunAll(envA, START, a).world.trace, i), Project(RunAll(envB, START, b).world.trace, j);
            p != [] && q != [] && p[1..] == q[1..]
  {
    EveryRun(envA, a, i);
    EveryRun(envB, b, j);
  }

  lemma {:induction false} StaysIff(incoming: seq<ReadResult>)
    ensures !Stays(incoming) <==> exists i :: 0 <= i < |incoming| && Ending(incoming[i])
  {
    forall i | 0 <= i < |incoming| ensures Quits(incoming[i]) <==> Ending(incoming[i]) {
      QuitsIff(incoming[i]);
    }
  }

  /** A session closes its connection at most once, as its last act, exactly when a read ends it. */
  lemma {:induction false} SessionCloses(db: seq<Sdk>, incoming: seq<ReadResult>)
    ensures var q := Session(db, incoming);
            && (Closed in q <==> !Stays(incoming))
            && (Closed in q <==> exists i :: 0 <= i < |incoming| && Ending(incoming[i]))
            && (forall i :: 0 <= i < |q| && q[i] == Closed ==> i == |q| - 1)
  {
    StaysIff(incoming);
    if incoming != [] {
      var r, rest := incoming[0], incoming[1..];
      SessionCloses(db, rest);
      assert incoming == [r] + rest;
      if Quits(r) {
        assert [Received(r), Closed][1] == Closed;
      } else {
        assert Closed !in Turn(db, r);
        assert Stays(incoming) <==> Stays(rest) by {
          if Stays(incoming) {
            assert forall i :: 0 <= i < |rest| ==> rest[i] == incoming[i + 1];
          }
        }
      }
    }
  }

  /** Some executed iteration finds the listening socket ready and a free descriptor 0 to accept on. */
  predicate AcceptsZero(listen: int, reserved: set<int>, script: seq<RoundInput>) {
    script != [] && !script[0].select.Failed? &&
    var now := script[0];
    || (now.select.Readable? && listen in now.select.fds && now.accept == 0 && 0 !in reserved)
    || AcceptsZero(listen, reserved, script[1..])
  }

  /** Nothing lists descriptor 0, so nothing closes it: it is open from the first accept that returned it. */
  lemma {:induction false} ZeroOpenIff(env: Setup, s: Server, script: seq<RoundInput>)
    requires Told(env, s) && env.Ok()
    ensures 0 in RunAll(env, s, script).world.files <==>
            0 in s.world.files || AcceptsZero(env.listen, env.reserved, script)
    decreases |script|
  {
    if script != [] && !script[0].select.Failed? {
      RoundTells(env, s, script[0]);
      ZeroOpenAfter(env, s, script[0]);
      ZeroOpenIff(env, Round(env, s, script[0]), script[1..]);
    }
  }

  lemma {:induction false} ZeroOpenAfter(env: Setup, s: Server, now: RoundInput)
    requires Conserved(env, s) && env.Ok()
    ensures 0 in Round(env, s, now).world.files <==>
            0 in s.world.files || (now.select.Readable? && env.listen in now.select.fds
                                   && now.accept == 0 && 0 !in env.reserved)
  {
    var ready := Ready(env, s, now);
    var gone := Leaving(now, ready, s.conns);
    LeavingBacked(now, ready, s.conns, s.world.files);
    forall c | c in gone ensures c.fd != 0 {
      var i :| 0 <= i < |gone| && gone[i] == c;
    }
  }

  /** Descriptor 0, once accepted, stays open for the rest of the run, for the same connection. */
  lemma {:induction false} ZeroStays(env: Setup, s: Server, script: seq<RoundInput>)
    requires Told(env, s) && env.Ok() && 0 in s.world.files
    ensures var t := RunAll(env, s, script); 0 in t.world.files && t.world.files[0] == s.world.files[0]
    decreases |script|
  {
    if script != [] && !script[0].select.Failed? {
      RoundTells(env, s, script[0]);
      ZeroOpenAfter(env, s, script[0]);
      ZeroStays(env, Round(env, s, script[0]), script[1..]);
    }
  }

  lemma {:induction false} AllButZeroListed(env: Setup, s: Server)
    requires Conserved(env, s)
    ensures Fds(s.conns) == s.world.files.Keys <==> 0 !in s.world.files
  {
    forall fd | fd in Fds(s.conns) ensures fd in s.world.files && fd != 0 {
      var c :| c in s.conns && c.fd == fd;
      var i :| 0 <= i < |s.conns| && s.conns[i] == c;
    }
    forall fd | fd in s.world.files && fd != 0 ensures fd in Fds(s.conns) {
      assert Conn(fd, s.world.files[fd]) in s.conns;
    }
  }

  /**
   Conservation, for every environment: the listed descriptors are positive and distinct, each is open and stands
   for its own connection, and they are all the open ones exactly when no accept in the run could return 0.
   */
  lemma {:induction false} Conservation(env: Setup, script: seq<RoundInput>)
    requires env.Ok()
    ensures var s := RunAll(env, START, script);
            && Conserved(env, s)
            && (Fds(s.conns) == s.world.files.Keys <==> !AcceptsZero(env.listen, env.reserved, script))
  {
    RunTells(env, START, script);
    AllButZeroListed(env, RunAll(env, START, script));
    ZeroOpenIff(env, START, script);
  }

  lemma {:induction false} ReservedZero(listen: int, reserved: set<int>, script: seq<RoundInput>)
    requires 0 in reserved
    ensures !AcceptsZero(listen, reserved, script)
    decreases |script|
  {
    if script != [] {
      ReservedZero(listen, reserved, script[1..]);
    }
  }

  /** A server never loses a descriptor, whatever happens to it, exactly when descriptor 0 is taken before its loop. */
  lemma {:induction false} NothingLostIff(env: Setup)
    requires env.Ok()
    ensures (forall script :: var s := RunAll(env, START, script); Fds(s.conns) == s.world.files.Keys) <==>
            0 in env.reserved
  {
    if 0 in env.reserved {
      forall script ensures var s := RunAll(env, START, script); Fds(s.conns) == s.world.files.Keys {
        ReservedZero(env.listen, env.reserved, script);
        Conservation(env, script);
      }
    } else {
      var script := [RoundInput(Readable({env.listen}), 0, map[], {})];
      assert AcceptsZero(env.listen, env.reserved, script);
      Conservation(env, script);
      var s := RunAll(env, START, script);
      assert Fds(s.conns) != s.world.files.Keys;
    }
  }

  /** One such run: a server with an SDK, descriptor 0 closed since its pipe was made, and a single accept. */
  lemma {:induction false} ZeroIsLost()
    ensures var env := Setup(3, 4, {1, 2, 3, 4}, [Sdk("SVR", "1", map[])]);
            var s := RunAll(env, START, [RoundInput(Readable({4}), 0, map[], {})]);
            env.Ok() && env.db != [] && 0 in s.world.files && s.conns == []
  {
    var env := Setup(3, 4, {1, 2, 3, 4}, [Sdk("SVR", "1", map[])]);
    var now := RoundInput(Readable({4}), 0, map[], {});
    assert Fds([]) == {};
    RoundAcceptsOnly(env, START, now);
    assert [now][1..] == [];
  }

  // A server with a single client

  function Alone(fd: int, r: ReadResult): RoundInput {
    RoundInput(Readable({fd}), -1, map[fd := r], {})
  }

  function AloneAll(fd: int, incoming: seq<ReadResult>): seq<RoundInput> {
    if incoming == [] then [] else [Alone(fd, incoming[0])] + AloneAll(fd, incoming[1..])
  }

  /** One iteration with a single connection, which is ready: its turn, and its end if the read quits. */
  lemma {:induction false} AloneRound(env: Setup, s: Server, fd: int, r: ReadResult)
    requires Conserved(env, s) && env.Ok() && s.conns == [Conn(fd, 0)]
    ensures var t := Round(env, s, Alone(fd, r));
            && Project(t.world.trace, 0) == Project(s.world.trace, 0) + TurnOrLast(env.db, r)
            && t.conns == (if Quits(r) then [] else s.conns)
            && t.world.next == s.world.next
  {
    var now := Alone(fd, r);
    ListenIsNoClient(env, s);
    assert s.conns[0] in s.conns && fd in Fds(s.conns);
    assert Ready(env, s, now) == {fd};
    RoundServesNewList(env, s, now);
    MemberGains(env, s, now, {fd}, 0);
    assert s.conns[..0] == [] && Leaving(now, {fd}, []) == [];
    var gone := Leaving(now, {fd}, s.conns);
    assert gone == if Quits(r) then s.conns else [];
    assert Without([], Fds(gone)) == [];
    assert Fds([]) == {};
  }

  /** With nobody connected the rest of the script is silent. */
  lemma {:induction false} SilentRest(env: Setup, s: Server, fd: int, rest: seq<ReadResult>)
    requires s.conns == [] && fd !in {env.wakeup, env.listen}
    ensures RunAll(env, s, AloneAll(fd, rest)) == s
    decreases |rest|
  {
    if rest != [] {
      assert Fds([]) == {};
      RoundIdle(env, s, Alone(fd, rest[0]));
      RunNext(env, s, Alone(fd, rest[0]), AloneAll(fd, rest[1..]));
      SilentRest(env, s, fd, rest[1..]);
    }
  }

  lemma {:induction false} RunNext(env: Setup, s: Server, now: RoundInput, rest: seq<RoundInput>)
    requires !now.select.Failed?
    ensures RunAll(env, s, [now] + rest) == RunAll(env, Round(env, s, now), rest)
  {
    assert ([now] + rest)[1..] == rest;
  }

  lemma {:induction false} Regroup(a: seq<Action>, b: seq<Action>, c: seq<Action>)
    ensures a + b + c == a + (b + c)
    ensures a + [] == a
  {
  }

  lemma {:induction false} AloneTells(env: Setup, s: Server, fd: int, incoming: seq<ReadResult>)
    requires Conserved(env, s) && env.Ok() && s.conns == [Conn(fd, 0)]
    ensures var t := RunAll(env, s, AloneAll(fd, incoming));
            && Project(t.world.trace, 0) == Project(s.world.trace, 0) + Session(env.db, incoming)
            && t.world.next == s.world.next
    decreases |incoming|
  {
    if incoming == [] {
      Regroup(Project(s.world.trace, 0), [], []);
    } else {
      var r, rest := incoming[0], incoming[1..];
      var t := Round(env, s, Alone(fd, r));
      AloneRound(env, s, fd, r);
      RoundKeepsConserved(env, s, Alone(fd, r));
      RunNext(env, s, Alone(fd, r), AloneAll(fd, rest));
      if Quits(r) {
        ListenIsNoClient(env, s);
        assert s.conns[0] in s.conns && fd in Fds(s.conns);
        SilentRest(env, t, fd, rest);
      } else {
        AloneTells(env, t, fd, rest);
        Regroup(Project(s.world.trace, 0), Turn(env.db, r), Session(env.db, rest));
      }
    }
  }

  lemma {:induction false} FirstAccept(env: Setup, fd: int)
    requires env.Ok() && fd > 0 && fd !in env.reserved
    ensures var s := Round(env, START, RoundInput(Readable({env.listen}), fd, map[], {}));
            && Conserved(env, s) && s.conns == [Conn(fd, 0)]
            && s.world.next == 1 && Project(s.world.trace, 0) == [Opened(fd)]
  {
    var now := RoundInput(Readable({env.listen}), fd, map[], {});
    assert Fds([]) == {};
    assert Ready(env, START, now) == {env.listen};
    RoundAcceptsOnly(env, START, now);
    RoundKeepsConserved(env, START, now);
    var s := Round(env, START, now);
    assert s.conns == [Conn(fd, 0)] && s.world.trace == [Event(0, Opened(fd))];
    assert s.world.trace[..0] == [] && Project([], 0) == [];
  }

  /** The session of any reads is what a server with one client that makes them does: accept it, then serve it alone. */
  lemma {:induction false} SessionIsSingleClient(env: Setup, fd: int, incoming: seq<ReadResult>)
    requires env.Ok() && fd > 0 && fd !in env.reserved
    ensures var script := [RoundInput(Readable({env.listen}), fd, map[], {})] + AloneAll(fd, incoming);
            var w := RunAll(env, START, script).world;
            w.next == 1 && Project(w.trace, 0) == [Opened(fd)] + Session(env.db, incoming)
  {
    var now := RoundInput(Readable({env.listen}), fd, map[], {});
    FirstAccept(env, fd);
    AloneTells(env, Round(env, START, now), fd, incoming);
    RunNext(env, START, now, AloneAll(fd, incoming));
  }
}
