/**
 The server program: the two documents, the listener, its loop. What clients experience of the code itself,
 put together from the loop's refinement and the theorems about runs.
 */
module VrServer {
  import opened SdkDatabase
  import opened ClientProtocol
  import opened CStrings
  import opened Kernel
  import opened ServerListener
  import opened ServerRounds
  import opened ServerRuns
  import opened ClientView

  /**
   One connection's whole story in a world: the session of its own reads, told by the documents, and over exactly
   when a read ended it.
   */
  ghost predicate StoryIs(docs: seq<Document>, w: World, id: nat) {
    var p := Project(w.trace, id);
    && Story(docs, p)
    && p[1..] == Session(ParseAll(docs), ReadsIn(p))
    && (Closed in p <==> Ended(p))
    && (IsOpen(w.files, id) <==> !Ended(p))
  }

  /**
   For any documents and any environment: no call used a dead descriptor, every connection's story is its own,
   nobody was ever accepted without an SDK to answer about, and every open descriptor is listed unless descriptor 0
   was free and accepted.
   */
  method ServeDocuments(svrinfo: Document, lvrinfo: Document, startup: Startup,
                        reserved: set<int>, script: seq<RoundInput>)
    returns (kernel: Kernel, listener: ServerListener)
    requires startup.Listening? ==> Setup(startup.wakeup, startup.listen, reserved, []).Ok()
    ensures var db, w := ParseAll([svrinfo, lvrinfo]), kernel.Now();
            && WellStamped(w.trace, w.next)
            && (forall id: nat :: id < w.next ==> StoryIs([svrinfo, lvrinfo], w, id))
            && (w.next > 0 ==> db != [])
            && (Fds(Conns(listener.mConnectors)) == w.files.Keys <==>
                db == [] || !startup.Listening? || !AcceptsZero(startup.listen, reserved, script))
    ensures 0 in reserved ==> Fds(Conns(listener.mConnectors)) == kernel.files.Keys
  {
    kernel := new Kernel(reserved, script);
    listener := new ServerListener(svrinfo, lvrinfo);
    ghost var db := ParseAll([svrinfo, lvrinfo]);
    ghost var env := match startup
      case Listening(wakeup, listen) => Setup(wakeup, listen, reserved, db)
      case _ => Setup(0, 1, {0, 1}, db);
    assert listener.State(kernel) == START;
    listener.Run(kernel, startup, env);
    ghost var ran := if db == [] || !startup.Listening? then [] else script;
    assert listener.State(kernel) == RunAll(env, START, ran);
    Conservation(env, ran);
    if 0 in reserved {
      ReservedZero(env.listen, env.reserved, ran);
    }
    ToldOfRun(env, [svrinfo, lvrinfo], ran);
  }

  lemma {:induction false} ToldOfRun(env: Setup, docs: seq<Document>, script: seq<RoundInput>)
    requires env.Ok() && env.db == ParseAll(docs)
    ensures var w := RunAll(env, START, script).world;
            WellStamped(w.trace, w.next) && forall id: nat :: id < w.next ==> StoryIs(docs, w, id)
  {
    var w := RunAll(env, START, script).world;
    RunTells(env, START, script);
    forall id: nat | id < w.next ensures StoryIs(docs, w, id) {
      EveryRun(env, script, id);
      EveryStory(env, docs, script, id);
    }
  }

  /** A running server never refuses "support_sdks" for want of types. */
  lemma {:induction false} TypesAlwaysListed(env: Setup, script: seq<RoundInput>, id: nat, m: nat)
    requires env.Ok() && env.db != [] && id < RunAll(env, START, script).world.next
    requires var p := Project(RunAll(env, START, script).world.trace, id);
             m < |p| && p[m].Received? && p[m].r.Data? && Guard(SupportSdks, CString(p[m].r.bytes))
    ensures var p := Project(RunAll(env, START, script).world.trace, id);
            && m + 1 < |p| && p[m + 1].Sent?
            && p[m + 1].text == Take(Join(Types(env.db)), BUFF_SIZE)
            && (|Join(Types(env.db))| <= BUFF_SIZE ==> Split(p[m + 1].text) == Types(env.db))
  {
    EveryRun(env, script, id);
    var p := Project(RunAll(env, START, script).world.trace, id);
    AnsweredNext(env.db, p, m, SupportSdks);
    TypesReply(env.db, CString(p[m].r.bytes));
  }

  lemma {:induction false} TypesReply(db: seq<Sdk>, r: Text)
    requires db != [] && Guard(SupportSdks, r)
    ensures Response(db, r) == Take(Join(Types(db)), BUFF_SIZE)
    ensures |Join(Types(db))| <= BUFF_SIZE ==> Split(Response(db, r)) == Types(db)
  {
    TypeListRoundTrip(db, r);
    AnsweredIs(db, SupportSdks, r);
    TypeNames(db);
  }
}
