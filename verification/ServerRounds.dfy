/**
 What one iteration of the server loop is meant to do, with connections known by identity instead of by
 descriptor: no shortcuts, no list of quitters, no search. The loop is proved to do exactly this.
 */
module ServerRounds {
  import opened SdkDatabase
  import opened Kernel
  import opened ClientConnector

  datatype Conn = Conn(fd: int, id: nat)

  /** The fixed part of a run: the two descriptors always watched, all non-client descriptors, the database. */
  datatype Setup = Setup(wakeup: int, listen: int, reserved: set<int>, db: seq<Sdk>) {
    predicate Ok() {
      wakeup >= 0 && listen >= 0 && wakeup != listen && wakeup in reserved && listen in reserved
    }
  }

  datatype Server = Server(conns: seq<Conn>, world: World)

  function Fds(conns: seq<Conn>): set<int> {
    set c | c in conns :: c.fd
  }

  function Watched(env: Setup, conns: seq<Conn>): set<int> {
    {env.wakeup, env.listen} + Fds(conns)
  }

  predicate Leaves(now: RoundInput, ready: set<int>, fd: int) {
    fd in ready && Quits(ReadOf(now, fd))
  }

  function Leaving(now: RoundInput, ready: set<int>, conns: seq<Conn>): seq<Conn> {
    if conns == [] then []
    else
      var c := conns[|conns| - 1];
      Leaving(now, ready, conns[..|conns| - 1]) + if Leaves(now, ready, c.fd) then [c] else []
  }

  /** The connections whose descriptor is not among fds, in order. */
  function Without(conns: seq<Conn>, fds: set<int>): seq<Conn> {
    if conns == [] then []
    else
      var c := conns[|conns| - 1];
      Without(conns[..|conns| - 1], fds) + if c.fd in fds then [] else [c]
  }

  function ServedOne(db: seq<Sdk>, now: RoundInput, ready: set<int>, c: Conn): seq<Event> {
    if c.fd in ready then Stamp(c.id, Turn(db, ReadOf(now, c.fd))) else []
  }

  function Served(db: seq<Sdk>, now: RoundInput, ready: set<int>, conns: seq<Conn>): seq<Event> {
    if conns == [] then []
    else Served(db, now, ready, conns[..|conns| - 1]) + ServedOne(db, now, ready, conns[|conns| - 1])
  }

  function Closings(conns: seq<Conn>): (r: seq<Event>)
    ensures |r| == |conns| && forall i :: 0 <= i < |r| ==> r[i] == Event(conns[i].id, Closed)
  {
    seq(|conns|, i requires 0 <= i < |conns| => Event(conns[i].id, Closed))
  }

  /** accept: a positive descriptor is listed; descriptor 0 is opened by the kernel and then dropped unlisted. */
  function Admit(env: Setup, s: Server, now: RoundInput): Server {
    if Acceptable(s.world, env.reserved, now.accept) then
      Server(if now.accept > 0 then s.conns + [Conn(now.accept, s.world.next)] else s.conns,
             Accepted(s.world, now.accept))
    else s
  }

  function Ready(env: Setup, s: Server, now: RoundInput): set<int> {
    if now.select.Readable? then set fd | fd in Watched(env, s.conns) && fd in now.select.fds else {}
  }

  function Admitted(env: Setup, s: Server, now: RoundInput): Server {
    if env.listen in Ready(env, s, now) then Admit(env, s, now) else s
  }

  /** Some connections served: what they did joins the trace. */
  function ServeAll(db: seq<Sdk>, now: RoundInput, ready: set<int>, s: Server): Server {
    s.(world := s.world.(trace := s.world.trace + Served(db, now, ready, s.conns)))
  }

  /** Some connections deleted and closed. */
  function DropAll(s: Server, gone: seq<Conn>): Server {
    Server(Without(s.conns, Fds(gone)),
           World(s.world.files - Fds(gone), s.world.next, s.world.trace + Closings(gone)))
  }

  function Round(env: Setup, s: Server, now: RoundInput): Server {
    var ready := Ready(env, s, now);
    var t := Admitted(env, s, now);
    var gone := Leaving(now, ready, s.conns);
    Server(Without(s.conns, Fds(gone)) + t.conns[|s.conns|..],
           World(t.world.files - Fds(gone), t.world.next,
                 t.world.trace + Served(env.db, now, ready, s.conns) + Closings(gone)))
  }

  /** All the iterations of a script, up to a failing select. */
  function RunAll(env: Setup, s: Server, script: seq<RoundInput>): Server
    decreases |script|
  {
    if script == [] || script[0].select.Failed? then s
    else RunAll(env, Round(env, s, script[0]), script[1..])
  }

  lemma {:induction false} RunAllNext(env: Setup, s: Server, script: seq<RoundInput>)
    requires script != []
    ensures RunAll(env, s, script) ==
            if script[0].select.Failed? then Round(env, s, script[0])
            else RunAll(env, Round(env, s, script[0]), script[1..])
  {
    if script[0].select.Failed? {
      assert Ready(env, s, script[0]) == {};
      RoundIdle(env, s, script[0]);
    }
  }

  // What holds at the head of every iteration

  predicate DistinctFds(conns: seq<Conn>) {
    conns == [] || (conns[|conns| - 1].fd !in Fds(conns[..|conns| - 1]) && DistinctFds(conns[..|conns| - 1]))
  }

  ghost predicate Backed(conns: seq<Conn>, files: map<int, nat>) {
    forall i :: 0 <= i < |conns| ==> conns[i].fd > 0 && conns[i].fd in files && files[conns[i].fd] == conns[i].id
  }

  /** The listed descriptors are the open client descriptors, 0 apart, each standing for its own connection. */
  ghost predicate Conserved(env: Setup, s: Server) {
    var files := s.world.files;
    && DistinctFds(s.conns)
    && Backed(s.conns, files)
    && (forall fd :: fd in files ==> fd >= 0 && fd !in env.reserved && files[fd] < s.world.next)
    && (forall fd :: fd in files && fd != 0 ==> Conn(fd, files[fd]) in s.conns)
    && (forall fd, fe :: fd in files && fe in files && files[fd] == files[fe] ==> fd == fe)
  }

  lemma {:induction false} LeavingMembers(now: RoundInput, ready: set<int>, conns: seq<Conn>)
    ensures forall c :: c in Leaving(now, ready, conns) <==> c in conns && Leaves(now, ready, c.fd)
  {
    if conns != [] {
      assert conns == conns[..|conns| - 1] + [conns[|conns| - 1]];
      LeavingMembers(now, ready, conns[..|conns| - 1]);
    }
  }

  lemma {:induction false} WithoutMembers(conns: seq<Conn>, fds: set<int>)
    ensures forall c :: c in Without(conns, fds) <==> c in conns && c.fd !in fds
  {
    if conns != [] {
      assert conns == conns[..|conns| - 1] + [conns[|conns| - 1]];
      WithoutMembers(conns[..|conns| - 1], fds);
    }
  }

  lemma {:induction false} FdsGrow(a: seq<Conn>, b: seq<Conn>)
    requires forall c :: c in a ==> c in b
    ensures Fds(a) <= Fds(b)
  {
    forall fd | fd in Fds(a) ensures fd in Fds(b) {
      var c :| c in a && c.fd == fd;
      assert c in b;
    }
  }

  lemma {:induction false} DistinctAppend(conns: seq<Conn>, c: Conn)
    requires DistinctFds(conns) && c.fd !in Fds(conns)
    ensures DistinctFds(conns + [c])
  {
    assert (conns + [c])[..|conns|] == conns;
  }

  lemma {:induction false} WithoutDistinct(conns: seq<Conn>, fds: set<int>)
    requires DistinctFds(conns)
    ensures DistinctFds(Without(conns, fds))
  {
    if conns != [] {
      var front, last := conns[..|conns| - 1], conns[|conns| - 1];
      WithoutDistinct(front, fds);
      WithoutMembers(front, fds);
      var r := Without(front, fds);
      FdsGrow(r, front);
      assert r + [] == r;
      if last.fd !in Fds(r) {
        DistinctAppend(r, last);
      }
    }
  }

  lemma {:induction false} LeavingDistinct(now: RoundInput, ready: set<int>, conns: seq<Conn>)
    requires DistinctFds(conns)
    ensures DistinctFds(Leaving(now, ready, conns))
  {
    if conns != [] {
      var front, last := conns[..|conns| - 1], conns[|conns| - 1];
      LeavingDistinct(now, ready, front);
      LeavingMembers(now, ready, front);
      var r := Leaving(now, ready, front);
      FdsGrow(r, front);
      assert r + [] == r;
      if last.fd !in Fds(r) {
        DistinctAppend(r, last);
      }
    }
  }

  lemma {:induction false} LeavingBacked(now: RoundInput, ready: set<int>, conns: seq<Conn>, files: map<int, nat>)
    requires Backed(conns, files)
    ensures Backed(Leaving(now, ready, conns), files)
  {
    var r := Leaving(now, ready, conns);
    LeavingMembers(now, ready, conns);
    forall i | 0 <= i < |r| ensures r[i] in conns {
    }
  }

  lemma {:induction false} DistinctPrefix(conns: seq<Conn>, k: nat)
    requires DistinctFds(conns) && k <= |conns|
    ensures DistinctFds(conns[..k])
  {
    if k == |conns| {
      assert conns[..k] == conns;
    } else {
      DistinctPrefix(conns[..|conns| - 1], k);
      assert conns[..|conns| - 1][..k] == conns[..k];
    }
  }

  lemma {:induction false} DistinctTail(conns: seq<Conn>)
    requires DistinctFds(conns) && conns != []
    ensures DistinctFds(conns[1..]) && conns[0].fd !in Fds(conns[1..])
  {
    if |conns| > 1 {
      var front, last := conns[..|conns| - 1], conns[|conns| - 1];
      DistinctTail(front);
      assert conns[1..][..|conns| - 2] == front[1..];
      assert conns[1..] == front[1..] + [last];
      assert front[0] in front;
    }
  }

  lemma {:induction false} AdmitKeepsConserved(env: Setup, s: Server, now: RoundInput)
    requires Conserved(env, s)
    ensures Conserved(env, Admit(env, s, now))
  {
    if Acceptable(s.world, env.reserved, now.accept) {
      AcceptKeepsList(env, s, now);
      AcceptKeepsFiles(env, s, now);
    }
  }

  lemma {:induction false} AcceptKeepsList(env: Setup, s: Server, now: RoundInput)
    requires Conserved(env, s) && Acceptable(s.world, env.reserved, now.accept)
    ensures var t := Admit(env, s, now); DistinctFds(t.conns) && Backed(t.conns, t.world.files)
  {
    var c := Conn(now.accept, s.world.next);
    forall d | d in s.conns ensures d.fd != c.fd {
      var i :| 0 <= i < |s.conns| && s.conns[i] == d;
    }
    DistinctAppend(s.conns, c);
  }

  lemma {:induction false} AcceptKeepsFiles(env: Setup, s: Server, now: RoundInput)
    requires Conserved(env, s) && Acceptable(s.world, env.reserved, now.accept)
    ensures var t := Admit(env, s, now);
            && (forall fd :: fd in t.world.files ==>
                  fd >= 0 && fd !in env.reserved && t.world.files[fd] < t.world.next)
            && (forall fd :: fd in t.world.files && fd != 0 ==> Conn(fd, t.world.files[fd]) in t.conns)
            && (forall fd, fe ::
                  fd in t.world.files && fe in t.world.files && t.world.files[fd] == t.world.files[fe] ==> fd == fe)
  {
    var t := Admit(env, s, now);
    forall fd | fd in t.world.files && fd != 0 ensures Conn(fd, t.world.files[fd]) in t.conns {
      if fd == now.accept {
        assert t.conns[|s.conns|] == Conn(fd, s.world.next);
      } else {
        assert Conn(fd, s.world.files[fd]) in s.conns;
      }
    }
  }

  lemma {:induction false} DropKeepsConserved(env: Setup, s: Server, fds: set<int>)
    requires Conserved(env, s)
    ensures Conserved(env, Server(Without(s.conns, fds), s.world.(files := s.world.files - fds)))
  {
    WithoutDistinct(s.conns, fds);
    WithoutMembers(s.conns, fds);
    forall fd | fd in s.world.files && fd != 0 && fd !in fds
      ensures Conn(fd, s.world.files[fd]) in Without(s.conns, fds)
    {
      assert Conn(fd, s.world.files[fd]) in s.conns;
    }
  }

  lemma {:induction false} NoneReady(db: seq<Sdk>, now: RoundInput, ready: set<int>, conns: seq<Conn>)
    requires Fds(conns) !! ready
    ensures Served(db, now, ready, conns) == [] && Leaving(now, ready, conns) == []
  {
    if conns != [] {
      var front, last := conns[..|conns| - 1], conns[|conns| - 1];
      assert conns == front + [last];
      assert last in conns && last.fd in Fds(conns);
      forall fd | fd in Fds(front) ensures fd in Fds(conns) {
        var c :| c in front && c.fd == fd;
        assert c in conns;
      }
      NoneReady(db, now, ready, front);
    }
  }

  /** A connection accepted in an iteration has a descriptor select was not asked about. */
  lemma {:induction false} NewcomerNotReady(env: Setup, s: Server, now: RoundInput)
    requires Conserved(env, s) && env.Ok() && Acceptable(s.world, env.reserved, now.accept)
    ensures now.accept !in Ready(env, s, now)
  {
    forall c | c in s.conns ensures c.fd != now.accept {
      assert c.fd in s.world.files;
    }
  }

  lemma {:induction false} NotReadyNotServed(db: seq<Sdk>, now: RoundInput, ready: set<int>, conns: seq<Conn>, c: Conn)
    requires c.fd !in ready
    ensures Served(db, now, ready, conns + [c]) == Served(db, now, ready, conns)
    ensures Leaving(now, ready, conns + [c]) == Leaving(now, ready, conns)
    ensures Without(conns + [c], Fds(Leaving(now, ready, conns))) ==
            Without(conns, Fds(Leaving(now, ready, conns))) + [c]
  {
    assert (conns + [c])[..|conns|] == conns;
    LeavingMembers(now, ready, conns);
    forall d | d in Leaving(now, ready, conns) ensures d.fd != c.fd {
      assert Leaves(now, ready, d.fd);
    }
  }

  /** Serving and erasing on the list that already holds the newcomer comes to the same. */
  lemma {:induction false} RoundServesNewList(env: Setup, s: Server, now: RoundInput)
    requires Conserved(env, s) && env.Ok()
    ensures var ready, t := Ready(env, s, now), Admitted(env, s, now);
            var gone := Leaving(now, ready, t.conns);
            Round(env, s, now) == DropAll(ServeAll(env.db, now, ready, t), gone)
  {
    var ready, t := Ready(env, s, now), Admitted(env, s, now);
    if |t.conns| > |s.conns| {
      NewcomerNotReady(env, s, now);
      NewcomerWaits(env, s, now, ready, t, Conn(now.accept, s.world.next));
    } else {
      assert t.conns == s.conns;
      assert t.conns[|s.conns|..] == [];
    }
  }

  lemma {:induction false} NewcomerWaits(env: Setup, s: Server, now: RoundInput, ready: set<int>, t: Server, c: Conn)
    requires c.fd !in ready && t.conns == s.conns + [c]
    ensures Leaving(now, ready, t.conns) == Leaving(now, ready, s.conns)
    ensures var gone := Leaving(now, ready, s.conns);
            DropAll(ServeAll(env.db, now, ready, t), gone) ==
            Server(Without(s.conns, Fds(gone)) + t.conns[|s.conns|..],
                   World(t.world.files - Fds(gone), t.world.next,
                         t.world.trace + Served(env.db, now, ready, s.conns) + Closings(gone)))
  {
    assert t.conns[|s.conns|..] == [c];
    NotReadyNotServed(env.db, now, ready, s.conns, c);
  }

  lemma {:induction false} RoundKeepsConserved(env: Setup, s: Server, now: RoundInput)
    requires Conserved(env, s) && env.Ok()
    ensures Conserved(env, Round(env, s, now))
  {
    var t := Admitted(env, s, now);
    AdmitKeepsConserved(env, s, now);
    RoundServesNewList(env, s, now);
    DropKeepsConserved(env, t, Fds(Leaving(now, Ready(env, s, now), t.conns)));
  }

  /** With nothing readable but perhaps the wakeup pipe, an iteration changes nothing. */
  lemma {:induction false} RoundIdle(env: Setup, s: Server, now: RoundInput)
    requires env.listen !in Ready(env, s, now) && Fds(s.conns) !! Ready(env, s, now)
    ensures Round(env, s, now) == s
  {
    NobodyServed(env, s, now);
    assert s.conns + s.conns[|s.conns|..] == s.conns;
  }

  lemma {:induction false} NobodyServed(env: Setup, s: Server, now: RoundInput)
    requires Fds(s.conns) !! Ready(env, s, now)
    ensures var t := Admitted(env, s, now);
            Round(env, s, now) == Server(s.conns + t.conns[|s.conns|..], t.world)
  {
    var t := Admitted(env, s, now);
    NoneReady(env.db, now, Ready(env, s, now), s.conns);
    WithoutNone(s.conns, {});
    assert Fds([]) == {} && Closings([]) == [];
    assert t.world.trace + [] + [] == t.world.trace;
    assert t.world.files - {} == t.world.files;
  }

  /** With only the listening socket readable, an iteration is the accept. */
  lemma {:induction false} RoundAcceptsOnly(env: Setup, s: Server, now: RoundInput)
    requires Conserved(env, s) && env.Ok() && Ready(env, s, now) == {env.listen}
    ensures Round(env, s, now) == Admit(env, s, now)
  {
    ListenIsNoClient(env, s);
    NobodyServed(env, s, now);
    var t := Admit(env, s, now);
    assert s.conns + t.conns[|s.conns|..] == t.conns;
  }

  /** The nfds == 1 shortcuts, and the whole body, all come to one Round. */
  lemma {:induction false} RoundCases(env: Setup, s: Server, now: RoundInput)
    requires Conserved(env, s) && env.Ok()
    ensures var ready, t := Ready(env, s, now), Admitted(env, s, now);
            && (ready == {env.wakeup} || ready == {env.listen} ==> Round(env, s, now) == t)
            && Round(env, s, now) == DropAll(ServeAll(env.db, now, ready, t), Leaving(now, ready, t.conns))
  {
    ListenIsNoClient(env, s);
    if Ready(env, s, now) == {env.wakeup} {
      RoundIdle(env, s, now);
    } else if Ready(env, s, now) == {env.listen} {
      RoundAcceptsOnly(env, s, now);
    }
    RoundServesNewList(env, s, now);
  }

  lemma {:induction false} ListenIsNoClient(env: Setup, s: Server)
    requires Conserved(env, s) && env.Ok()
    ensures env.listen !in Fds(s.conns) && env.wakeup !in Fds(s.conns)
  {
    forall c | c in s.conns ensures c.fd != env.listen && c.fd != env.wakeup {
      assert c.fd in s.world.files;
    }
  }

  // Erasing by search

  /** The list after erasing its first entry with this descriptor. */
  function EraseFirst(conns: seq<Conn>, fd: int): seq<Conn> {
    if conns == [] then []
    else if conns[0].fd == fd then conns[1..]
    else [conns[0]] + EraseFirst(conns[1..], fd)
  }

  lemma {:induction false} WithoutNone(conns: seq<Conn>, fds: set<int>)
    requires Fds(conns) !! fds
    ensures Without(conns, fds) == conns
  {
    if conns != [] {
      var front, last := conns[..|conns| - 1], conns[|conns| - 1];
      assert conns == front + [last];
      assert last in conns && last.fd in Fds(conns);
      forall fd | fd in Fds(front) ensures fd in Fds(conns) {
        var c :| c in front && c.fd == fd;
        assert c in conns;
      }
      WithoutNone(front, fds);
    }
  }

  lemma {:induction false} WithoutConcat(a: seq<Conn>, b: seq<Conn>, fds: set<int>)
    ensures Without(a + b, fds) == Without(a, fds) + Without(b, fds)
  {
    if b == [] {
      assert a + b == a;
    } else {
      WithoutConcat(a, b[..|b| - 1], fds);
      assert (a + b)[..|a + b| - 1] == a + b[..|b| - 1];
    }
  }

  lemma {:induction false} WithoutHead(conns: seq<Conn>, fds: set<int>)
    requires conns != []
    ensures Without(conns, fds) == (if conns[0].fd in fds then [] else [conns[0]]) + Without(conns[1..], fds)
  {
    assert conns == [conns[0]] + conns[1..];
    assert [conns[0]][..0] == [];
    WithoutConcat([conns[0]], conns[1..], fds);
  }

  lemma {:induction false} EraseFirstIsWithout(conns: seq<Conn>, fd: int)
    requires DistinctFds(conns)
    ensures EraseFirst(conns, fd) == Without(conns, {fd})
  {
    if conns != [] {
      WithoutHead(conns, {fd});
      DistinctTail(conns);
      if conns[0].fd == fd {
        WithoutNone(conns[1..], {fd});
      } else {
        EraseFirstIsWithout(conns[1..], fd);
      }
    }
  }

  lemma {:induction false} WithoutWithout(conns: seq<Conn>, a: set<int>, b: set<int>)
    ensures Without(Without(conns, a), b) == Without(conns, a + b)
  {
    if conns != [] {
      var front, last := conns[..|conns| - 1], conns[|conns| - 1];
      WithoutWithout(front, a, b);
      WithoutConcat(Without(front, a), if last.fd in a then [] else [last], b);
      assert [last][..0] == [];
    }
  }
}
