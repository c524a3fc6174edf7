/**
 The start gate of Thread: two mutexes shared by all Thread objects, taken step by step by constructors,
 destructors, start() and the new OS threads, in any interleaving of any number of objects and creators.
 */
module StartGate {
  import opened CStrings
  import opened Runs

  type Obj = nat
  type Creator = nat
  type ThreadId = nat

  /** Where an object's creator stands with it, in the order the code passes through. */
  datatype Phase =
    | Absent     // not begun
    | Calling    // in Thread::Thread, about to lock gStartupMutex
    | Locked     // gStartupMutex taken
    | Spawned    // pthread_create done, about to lock gMutex
    | InMap      // gMutex taken
    | Inserted   // gThreads updated
    | BaseBuilt  // gMutex released, Thread::Thread returned
    | Built      // the derived constructor returned
    | Started    // start() called
    | Leaving    // in ~Thread, about to lock gMutex
    | LeavingMap // gMutex taken
    | Erased     // gThreads updated
    | Gone       // gMutex released

  /** Where an object's OS thread stands. */
  datatype Entry = NoThread | Waiting | Inside | Past | Running | Finished

  datatype Holder = Free | ByCreator(o: Obj) | ByThread(o: Obj)

  datatype State = State(
    phase: map<Obj, Phase>,
    entry: map<Obj, Entry>,
    creator: map<Obj, Creator>,
    busy: map<Creator, seq<Obj>>,  // the constructors and destructors a creator is inside, innermost last
    startup: Holder,               // gStartupMutex
    g: Holder,                     // gMutex
    mID: map<Obj, ThreadId>,
    gThreads: map<ThreadId, Obj>)

  const INIT := State(map[], map[], map[], map[], Free, Free, map[], map[])

  function Rank(p: Phase): nat {
    match p
    case Absent => 0 case Calling => 1 case Locked => 2 case Spawned => 3 case InMap => 4 case Inserted => 5
    case BaseBuilt => 6 case Built => 7 case Started => 8 case Leaving => 9 case LeavingMap => 10 case Erased => 11
    case Gone => 12
  }

  function At(s: State, o: Obj): Phase {
    if o in s.phase then s.phase[o] else Absent
  }

  function ThreadAt(s: State, o: Obj): Entry {
    if o in s.entry then s.entry[o] else NoThread
  }

  /** The calls a creator is inside, innermost last. */
  function Stack(s: State, t: Creator): seq<Obj> {
    if t in s.busy then s.busy[t] else []
  }

  datatype Action =
    | Construct(o: Obj, t: Creator) | LockStartup(o: Obj) | Spawn(o: Obj, id: ThreadId) | LockMap(o: Obj)
    | Insert(o: Obj) | UnlockMap(o: Obj) | FinishDerived(o: Obj) | Start(o: Obj)
    | Destroy(o: Obj) | LockMapAgain(o: Obj) | Erase(o: Obj) | UnlockMapAgain(o: Obj)
    | EnterLock(o: Obj) | EnterUnlock(o: Obj) | BeginRun(o: Obj) | EndRun(o: Obj)
    | Stray(o: Obj) // start() called on an object whose derived constructor is still at work, or once more

  /** A thread id is not handed out while a thread that has it is alive; afterwards it may be. */
  predicate FreshId(s: State, id: ThreadId) {
    forall o :: o in s.mID && s.mID[o] == id ==> ThreadAt(s, o) == Finished
  }

  /** A creator's own code has the word: it is in no call, or in a derived constructor, which may do anything. */
  predicate Speaks(s: State, t: Creator) {
    var calls := Stack(s, t);
    calls == [] || At(s, calls[|calls| - 1]) == BaseBuilt
  }

  predicate CreatorSpeaks(s: State, o: Obj) {
    o in s.creator && Speaks(s, s.creator[o])
  }

  predicate Innermost(s: State, o: Obj) {
    o in s.creator && var calls := Stack(s, s.creator[o]); calls != [] && calls[|calls| - 1] == o
  }

  /** A step can be taken: the code has reached it and, for a lock, the mutex is free. */
  predicate Enabled(s: State, a: Action) {
    match a
    case Construct(o, t) => At(s, o) == Absent && Speaks(s, t)
    case LockStartup(o) => At(s, o) == Calling && s.startup == Free
    case Spawn(o, id) => At(s, o) == Locked && FreshId(s, id)
    case LockMap(o) => At(s, o) == Spawned && s.g == Free
    case Insert(o) => At(s, o) == InMap
    case UnlockMap(o) => At(s, o) == Inserted
    case FinishDerived(o) => At(s, o) == BaseBuilt && Innermost(s, o)
    case Start(o) => At(s, o) == Built && CreatorSpeaks(s, o)
    case Destroy(o) => At(s, o) == Started && CreatorSpeaks(s, o)
    case LockMapAgain(o) => At(s, o) == Leaving && s.g == Free
    case Erase(o) => At(s, o) == LeavingMap
    case UnlockMapAgain(o) => At(s, o) == Erased
    case EnterLock(o) => ThreadAt(s, o) == Waiting && s.startup == Free
    case EnterUnlock(o) => ThreadAt(s, o) == Inside
    case BeginRun(o) => ThreadAt(s, o) == Past
    case EndRun(o) => ThreadAt(s, o) == Running
    case Stray(o) => At(s, o) in {BaseBuilt, Started}
  }

  /** The steps of a program that calls start() as it should, or out of turn only while the mutex is free. */
  predicate Proper(s: State, a: Action) {
    Enabled(s, a) && (a.Stray? ==> s.startup == Free)
  }

  /** Where a step leaves its object. */
  function Phases(s: State, a: Action): map<Obj, Phase> {
    match a
    case Construct(o, _) => s.phase[o := Calling]
    case LockStartup(o) => s.phase[o := Locked]
    case Spawn(o, _) => s.phase[o := Spawned]
    case LockMap(o) => s.phase[o := InMap]
    case Insert(o) => s.phase[o := Inserted]
    case UnlockMap(o) => s.phase[o := BaseBuilt]
    case FinishDerived(o) => s.phase[o := Built]
    case Start(o) => s.phase[o := Started]
    case Destroy(o) => s.phase[o := Leaving]
    case LockMapAgain(o) => s.phase[o := LeavingMap]
    case Erase(o) => s.phase[o := Erased]
    case UnlockMapAgain(o) => s.phase[o := Gone]
    case _ => s.phase
  }

  /** And the object's thread. */
  function Entries(s: State, a: Action): map<Obj, Entry> {
    match a
    case Spawn(o, _) => s.entry[o := Waiting]
    case EnterLock(o) => s.entry[o := Inside]
    case EnterUnlock(o) => s.entry[o := Past]
    case BeginRun(o) => s.entry[o := Running]
    case EndRun(o) => s.entry[o := Finished]
    case _ => s.entry
  }

  /** Unlocking is unconditional: whoever calls it, the mutex is free afterwards. */
  function Startup(s: State, a: Action): Holder {
    match a
    case LockStartup(o) => ByCreator(o)
    case EnterLock(o) => ByThread(o)
    case Start(_) => Free
    case Stray(_) => Free
    case EnterUnlock(_) => Free
    case _ => s.startup
  }

  function MapMutex(s: State, a: Action): Holder {
    match a
    case LockMap(o) => ByCreator(o)
    case LockMapAgain(o) => ByCreator(o)
    case UnlockMap(_) => Free
    case UnlockMapAgain(_) => Free
    case _ => s.g
  }

  predicate Pushes(a: Action) {
    a.Construct? || a.Destroy?
  }

  predicate Pops(a: Action) {
    a.FinishDerived? || a.UnlockMapAgain?
  }

  /** Whose calls a step opens or closes. */
  function Caller(s: State, a: Action): Option<Creator> {
    if a.Construct? then Some(a.t)
    else if (Pushes(a) || Pops(a)) && a.o in s.creator then Some(s.creator[a.o])
    else None
  }

  function Calls(s: State, a: Action): map<Creator, seq<Obj>> {
    match Caller(s, a)
    case None => s.busy
    case Some(t) =>
      var calls := Stack(s, t);
      if Pushes(a) then s.busy[t := calls + [a.o]]
      else if calls == [] then s.busy
      else s.busy[t := calls[..|calls| - 1]]
  }

  /** insert leaves an entry that is there alone; erase looks one up by the object's own id. */
  function Threads(s: State, a: Action): map<ThreadId, Obj> {
    match a
    case Insert(o) => if o in s.mID && s.mID[o] !in s.gThreads then s.gThreads[s.mID[o] := o] else s.gThreads
    case Erase(o) => if o in s.mID then s.gThreads - {s.mID[o]} else s.gThreads
    case _ => s.gThreads
  }

  function Step(s: State, a: Action): State {
    State(
      Phases(s, a),
      Entries(s, a),
      if a.Construct? then s.creator[a.o := a.t] else s.creator,
      Calls(s, a),
      Startup(s, a),
      MapMutex(s, a),
      if a.Spawn? then s.mID[a.o := a.id] else s.mID,
      Threads(s, a))
  }

  /** All the code can do, and what it does when start() is used properly. */
  const ANY: Machine<State, Action> := Machine(INIT, Step, Enabled)
  const GATE: Machine<State, Action> := Machine(INIT, Step, Proper)

  // The invariant

  predicate HoldsStartup(p: Phase) {
    2 <= Rank(p) <= 7
  }

  predicate HoldsMap(p: Phase) {
    p in {InMap, Inserted, LeavingMap, Erased}
  }

  predicate InCall(p: Phase) {
    1 <= Rank(p) <= 6 || 9 <= Rank(p) <= 11
  }

  /** Each mutex is held by exactly the creator or thread that is between its lock and its unlock. */
  ghost predicate MutexOk(s: State, o: Obj) {
    && (HoldsStartup(At(s, o)) <==> s.startup == ByCreator(o))
    && (ThreadAt(s, o) == Inside <==> s.startup == ByThread(o))
    && (HoldsMap(At(s, o)) <==> s.g == ByCreator(o))
    && s.g != ByThread(o)
  }

  /** A thread exists once spawned and is beyond the gate only once its object is started. */
  ghost predicate ThreadOk(s: State, o: Obj) {
    var r, e := Rank(At(s, o)), ThreadAt(s, o);
    && (e != NoThread <==> r >= 3)
    && (e in {Inside, Past, Running, Finished} ==> r >= 8)
    && (r >= 3 ==> o in s.mID)
  }

  ghost predicate CallOk(s: State, o: Obj) {
    && (Rank(At(s, o)) >= 1 ==> o in s.creator)
    && (InCall(At(s, o)) <==> o in s.creator && o in Stack(s, s.creator[o]))
  }

  ghost predicate ObjectOk(s: State, o: Obj) {
    MutexOk(s, o) && ThreadOk(s, o) && CallOk(s, o)
  }

  /** No entry of gThreads is dangling: it is filed under its object's own id, inserted and not yet erased. */
  ghost predicate MapOk(s: State) {
    forall id :: id in s.gThreads ==>
      var o := s.gThreads[id]; o in s.mID && s.mID[o] == id && 5 <= Rank(At(s, o)) <= 10
  }

  /** A creator is inside calls of its own objects, at most one inside the derived constructor of another. */
  ghost predicate StackOk(s: State, t: Creator) {
    var calls := Stack(s, t);
    && |calls| <= 2
    && (forall i :: 0 <= i < |calls| ==> calls[i] in s.creator && s.creator[calls[i]] == t)
    && (|calls| == 2 ==> calls[0] != calls[1] && At(s, calls[0]) == BaseBuilt)
  }

  ghost predicate Inv(s: State) {
    && (forall o: Obj :: ObjectOk(s, o))
    && MapOk(s)
    && (forall t: Creator :: StackOk(s, t))
  }

  predicate Builds(a: Action) {
    a.Construct? || a.LockStartup? || a.Spawn? || a.LockMap? || a.Insert? || a.UnlockMap? || a.FinishDerived?
  }

  lemma {:induction false} MutexStep(s: State, a: Action, o: Obj)
    requires Proper(s, a) && ObjectOk(s, a.o) && MutexOk(s, o)
    ensures MutexOk(Step(s, a), o)
  {
    if o != a.o {
      OthersStay(s, a, o);
    } else if Builds(a) {
      MutexBuilds(s, a);
    } else {
      MutexRest(s, a);
    }
  }

  lemma {:induction false} MutexBuilds(s: State, a: Action)
    requires Proper(s, a) && ObjectOk(s, a.o) && Builds(a)
    ensures MutexOk(Step(s, a), a.o)
  {
  }

  lemma {:induction false} MutexRest(s: State, a: Action)
    requires Proper(s, a) && ObjectOk(s, a.o) && !Builds(a)
    ensures MutexOk(Step(s, a), a.o)
  {
  }

  lemma {:induction false} ThreadStep(s: State, a: Action, o: Obj)
    requires Enabled(s, a) && ObjectOk(s, a.o) && ThreadOk(s, o)
    ensures ThreadOk(Step(s, a), o)
  {
    if o != a.o {
      OthersStay(s, a, o);
    } else if Builds(a) {
      ThreadBuilds(s, a);
    } else {
      ThreadRest(s, a);
    }
  }

  lemma {:induction false} ThreadBuilds(s: State, a: Action)
    requires Enabled(s, a) && ObjectOk(s, a.o) && Builds(a)
    ensures ThreadOk(Step(s, a), a.o)
  {
  }

  lemma {:induction false} ThreadRest(s: State, a: Action)
    requires Enabled(s, a) && ObjectOk(s, a.o) && !Builds(a)
    ensures ThreadOk(Step(s, a), a.o)
  {
  }

  lemma {:induction false} OthersStay(s: State, a: Action, o: Obj)
    requires o != a.o
    ensures At(Step(s, a), o) == At(s, o) && ThreadAt(Step(s, a), o) == ThreadAt(s, o)
    ensures o in s.mID ==> o in Step(s, a).mID
  {
  }

  lemma {:induction false} MapStep(s: State, a: Action)
    requires Enabled(s, a) && ObjectOk(s, a.o) && MapOk(s)
    ensures MapOk(Step(s, a))
  {
    var t := Step(s, a);
    forall id | id in t.gThreads
      ensures t.gThreads[id] in t.mID && t.mID[t.gThreads[id]] == id && 5 <= Rank(At(t, t.gThreads[id])) <= 10
    {
      EntryStep(s, a, id);
    }
  }

  lemma {:induction false} EntryStep(s: State, a: Action, id: ThreadId)
    requires Enabled(s, a) && ObjectOk(s, a.o) && MapOk(s) && id in Step(s, a).gThreads
    ensures var t := Step(s, a);
            var o := t.gThreads[id];
            o in t.mID && t.mID[o] == id && 5 <= Rank(At(t, o)) <= 10
  {
    var o := Step(s, a).gThreads[id];
    if o != a.o {
      OthersStay(s, a, o);
    } else if a.Erase? {
      ErasesOwn(s, a, id);
    } else if !a.Insert? {
      OwnEntryStep(s, a, id);
    }
  }

  lemma {:induction false} ErasesOwn(s: State, a: Action, id: ThreadId)
    requires MapOk(s) && a.Erase? && id in Step(s, a).gThreads
    ensures Step(s, a).gThreads[id] != a.o
  {
    assert id in s.gThreads && Step(s, a).gThreads[id] == s.gThreads[id];
  }

  lemma {:induction false} OwnEntryStep(s: State, a: Action, id: ThreadId)
    requires Enabled(s, a) && MapOk(s) && !a.Insert? && !a.Erase? && id in s.gThreads && s.gThreads[id] == a.o
    ensures var t := Step(s, a);
            a.o in t.mID && t.mID[a.o] == id && 5 <= Rank(At(t, a.o)) <= 10
  {
    assert !a.Spawn? && !a.Construct?;
  }

  lemma {:induction false} StackAfter(s: State, a: Action, t: Creator)
    requires Enabled(s, a) && ObjectOk(s, a.o)
    ensures var calls, next := Stack(s, t), Stack(Step(s, a), t);
            if Caller(s, a) != Some(t) then next == calls
            else if Pushes(a) then next == calls + [a.o]
            else next == if calls == [] then [] else calls[..|calls| - 1]
  {
  }

  lemma {:induction false} CreatorAfter(s: State, a: Action, o: Obj)
    requires Enabled(s, a)
    ensures var c := Step(s, a).creator;
            if a.Construct? && a.o == o then o in c && c[o] == a.t
            else (o in c <==> o in s.creator) && (o in c ==> c[o] == s.creator[o])
  {
  }

  /** Only what is innermost is closed. */
  lemma {:induction false} PopsInnermost(s: State, a: Action)
    requires Enabled(s, a) && Pops(a) && CallOk(s, a.o) && forall t :: StackOk(s, t)
    ensures Innermost(s, a.o)
  {
    if a.UnlockMapAgain? {
      assert StackOk(s, s.creator[a.o]);
    }
  }

  lemma {:induction false} CallStep(s: State, a: Action, o: Obj)
    requires Enabled(s, a) && ObjectOk(s, a.o) && CallOk(s, o) && forall t :: StackOk(s, t)
    ensures CallOk(Step(s, a), o)
  {
    CreatorAfter(s, a, o);
    if Pops(a) {
      PopsInnermost(s, a);
    }
    if o == a.o {
      OwnCallStep(s, a);
    } else {
      OthersStay(s, a, o);
      if o in s.creator {
        var t := s.creator[o];
        StackAfter(s, a, t);
        assert StackOk(s, t);
        if Pops(a) && Caller(s, a) == Some(t) {
          SplitLast(Stack(s, t));
        }
      }
    }
  }

  lemma {:induction false} SplitLast(calls: seq<Obj>)
    requires calls != []
    ensures forall o :: o in calls <==> o in calls[..|calls| - 1] || o == calls[|calls| - 1]
  {
    assert calls == calls[..|calls| - 1] + [calls[|calls| - 1]];
  }

  lemma {:induction false} OwnCallStep(s: State, a: Action)
    requires Enabled(s, a) && ObjectOk(s, a.o) && (forall t :: StackOk(s, t)) && (Pops(a) ==> Innermost(s, a.o))
    ensures CallOk(Step(s, a), a.o)
  {
    CreatorAfter(s, a, a.o);
    PhaseAfter(s, a);
    var t := if a.Construct? then a.t else if a.o in s.creator then s.creator[a.o] else 0;
    StackAfter(s, a, t);
    assert StackOk(s, t);
  }

  /** What a step of o from p to q means for calls. */
  predicate Moves(a: Action, p: Phase, q: Phase) {
    && (Pushes(a) ==> !InCall(p) && InCall(q))
    && (Pops(a) ==> InCall(p) && !InCall(q))
    && (!Pushes(a) && !Pops(a) ==> (InCall(p) <==> InCall(q)) && (p == BaseBuilt ==> q == BaseBuilt))
    && (a.Construct? || Rank(p) >= 1)
    && Rank(q) >= 1
  }

  lemma {:induction false} PhaseAfter(s: State, a: Action)
    requires Enabled(s, a) && ThreadOk(s, a.o) && CallOk(s, a.o)
    ensures Moves(a, At(s, a.o), At(Step(s, a), a.o))
  {
    if Builds(a) {
      BuildMoves(s, a);
    } else {
      RestMoves(s, a);
    }
  }

  lemma {:induction false} BuildMoves(s: State, a: Action)
    requires Enabled(s, a) && Builds(a)
    ensures Moves(a, At(s, a.o), At(Step(s, a), a.o))
  {
  }

  lemma {:induction false} RestMoves(s: State, a: Action)
    requires Enabled(s, a) && ThreadOk(s, a.o) && !Builds(a)
    ensures Moves(a, At(s, a.o), At(Step(s, a), a.o))
  {
  }

  lemma {:induction false} StackStep(s: State, a: Action, t: Creator)
    requires Inv(s) && Enabled(s, a)
    ensures StackOk(Step(s, a), t)
  {
    assert ObjectOk(s, a.o) && StackOk(s, t);
    StackAfter(s, a, t);
    if Pops(a) {
      PopsInnermost(s, a);
    }
    StackMembers(s, a, t);
    if Pushes(a) && Caller(s, a) == Some(t) {
      PushStep(s, a, t);
    } else {
      KeptStep(s, a, t);
    }
  }

  lemma {:induction false} StackMembers(s: State, a: Action, t: Creator)
    requires Inv(s) && Enabled(s, a)
    ensures var next := Stack(Step(s, a), t);
            forall i :: 0 <= i < |next| ==>
              next[i] in Step(s, a).creator && Step(s, a).creator[next[i]] == t
  {
    var calls, next := Stack(s, t), Stack(Step(s, a), t);
    assert ObjectOk(s, a.o) && StackOk(s, t);
    StackAfter(s, a, t);
    forall i | 0 <= i < |next| ensures next[i] in Step(s, a).creator && Step(s, a).creator[next[i]] == t {
      CreatorAfter(s, a, next[i]);
      if i < |calls| {
        assert next[i] == calls[i] && ObjectOk(s, calls[i]);
      }
    }
  }

  lemma {:induction false} PushStep(s: State, a: Action, t: Creator)
    requires Inv(s) && Enabled(s, a) && Pushes(a) && Caller(s, a) == Some(t)
    requires Stack(Step(s, a), t) == Stack(s, t) + [a.o]
    ensures var next := Stack(Step(s, a), t);
            |next| <= 2 && (|next| == 2 ==> next[0] != next[1] && At(Step(s, a), next[0]) == BaseBuilt)
  {
    var calls := Stack(s, t);
    assert ObjectOk(s, a.o) && StackOk(s, t);
    PhaseAfter(s, a);
    if calls != [] {
      assert ObjectOk(s, calls[0]) && ObjectOk(s, calls[|calls| - 1]);
      assert Speaks(s, t);
      OthersStay(s, a, calls[0]);
    }
  }

  lemma {:induction false} KeptStep(s: State, a: Action, t: Creator)
    requires Inv(s) && Enabled(s, a) && (Pops(a) ==> Innermost(s, a.o))
    requires var calls := Stack(s, t); Stack(Step(s, a), t) in {calls, if calls == [] then [] else calls[..|calls| - 1]}
    requires Pops(a) && Caller(s, a) == Some(t) ==> Stack(Step(s, a), t) != Stack(s, t)
    ensures var next := Stack(Step(s, a), t);
            |next| <= 2 && (|next| == 2 ==> next[0] != next[1] && At(Step(s, a), next[0]) == BaseBuilt)
  {
    var calls, next := Stack(s, t), Stack(Step(s, a), t);
    assert ObjectOk(s, a.o) && StackOk(s, t);
    if |next| == 2 {
      PhaseAfter(s, a);
      if calls[0] != a.o {
        OthersStay(s, a, calls[0]);
      }
    }
  }

  lemma {:induction false} InvStep(s: State, a: Action)
    requires Inv(s) && Proper(s, a)
    ensures Inv(Step(s, a))
  {
    assert ObjectOk(s, a.o);
    forall o: Obj ensures ObjectOk(Step(s, a), o) {
      assert ObjectOk(s, o);
      MutexStep(s, a, o);
      ThreadStep(s, a, o);
      CallStep(s, a, o);
    }
    MapStep(s, a);
    forall t: Creator ensures StackOk(Step(s, a), t) {
      StackStep(s, a, t);
    }
  }

  /** Every reachable state, for any number of objects and any interleaving. */
  lemma {:induction false} RunKeepsInv(run: seq<Action>)
    requires IsRun(GATE, run)
    ensures Inv(After(GATE, run))
  {
    if run != [] {
      RunKeepsInv(run[..|run| - 1]);
      InvStep(After(GATE, run[..|run| - 1]), run[|run| - 1]);
    }
  }

  // The gate

  /** The steps an object has passed have been taken, in this order. */
  ghost predicate Passed(run: seq<Action>, o: Obj) {
    var p := Rank(At(After(GATE, run), o));
    && (p >= 7 ==> FinishDerived(o) in run)
    && (p >= 8 ==> exists j :: 0 <= j < |run| && run[j] == Start(o) && FinishDerived(o) in run[..j])
  }

  /** Those steps are the only ones that bring an object so far. */
  lemma {:induction false} Milestones(s: State, a: Action, o: Obj)
    requires Enabled(s, a)
    ensures Rank(At(s, o)) < 7 <= Rank(At(Step(s, a), o)) ==> a == FinishDerived(o)
    ensures Rank(At(s, o)) < 8 <= Rank(At(Step(s, a), o)) ==> a == Start(o) && At(s, o) == Built
  {
    if o != a.o {
      OthersStay(s, a, o);
    }
  }

  lemma {:induction false} HistoryOf(run: seq<Action>, o: Obj)
    requires IsRun(GATE, run)
    ensures Passed(run, o)
  {
    if run != [] {
      var front, a := run[..|run| - 1], run[|run| - 1];
      HistoryOf(front, o);
      assert run == front + [a];
      Milestones(After(GATE, front), a, o);
      PassedOn(front, a, o, Rank(At(After(GATE, front), o)), Rank(At(After(GATE, run), o)));
    }
  }

  lemma {:induction false} PassedOn(front: seq<Action>, a: Action, o: Obj, p: nat, q: nat)
    requires p >= 7 ==> FinishDerived(o) in front
    requires p >= 8 ==> exists j :: 0 <= j < |front| && front[j] == Start(o) && FinishDerived(o) in front[..j]
    requires p < 7 <= q ==> a == FinishDerived(o)
    requires p < 8 <= q ==> a == Start(o) && p == 7
    ensures var run := front + [a];
            && (q >= 7 ==> FinishDerived(o) in run)
            && (q >= 8 ==> exists j :: 0 <= j < |run| && run[j] == Start(o) && FinishDerived(o) in run[..j])
  {
    var run := front + [a];
    if p >= 8 {
      var j :| 0 <= j < |front| && front[j] == Start(o) && FinishDerived(o) in front[..j];
      assert run[j] == Start(o) && run[..j] == front[..j];
    } else if q >= 8 {
      assert run[|front|] == Start(o) && run[..|front|] == front;
    }
  }

  /**
   The start gate: in every run, an object's run() begins only after its own start(), which came after its derived
   constructor returned. For the listener that constructor is the one that parses both documents.
   */
  lemma {:induction false} RunAfterStart(run: seq<Action>, i: nat, o: Obj)
    requires IsRun(GATE, run) && i < |run| && run[i] == BeginRun(o)
    ensures exists j :: 0 <= j < i && run[j] == Start(o) && FinishDerived(o) in run[..j]
  {
    EnabledAt(GATE, run, i);
    BegunIsStarted(run[..i], o);
    StartedBefore(run, i, o);
  }

  lemma {:induction false} StartedBefore(run: seq<Action>, i: nat, o: Obj)
    requires i <= |run| && IsRun(GATE, run[..i]) && Rank(At(After(GATE, run[..i]), o)) >= 8
    ensures exists j :: 0 <= j < i && run[j] == Start(o) && FinishDerived(o) in run[..j]
  {
    var front := run[..i];
    HistoryOf(front, o);
    var j :| 0 <= j < |front| && front[j] == Start(o) && FinishDerived(o) in front[..j];
    assert run[j] == Start(o) && run[..j] == front[..j];
  }

  lemma {:induction false} BegunIsStarted(run: seq<Action>, o: Obj)
    requires IsRun(GATE, run) && Enabled(After(GATE, run), BeginRun(o))
    ensures Rank(At(After(GATE, run), o)) >= 8
  {
    RunKeepsInv(run);
    assert ObjectOk(After(GATE, run), o);
  }

  // A start out of turn

  /** Some object's run() is under way before its start(). */
  ghost predicate Early(s: State) {
    exists o :: ThreadAt(s, o) == Running && Rank(At(s, o)) < 8
  }

  lemma {:induction false} NeverEarly(s: State)
    requires Inv(s)
    ensures !Early(s)
  {
    forall o: Obj ensures ThreadAt(s, o) == Running ==> Rank(At(s, o)) >= 8 {
      assert ObjectOk(s, o);
    }
  }

  predicate Straight(more: seq<Action>) {
    forall i :: 0 <= i < |more| ==> !more[i].Stray?
  }

  /** While no start() is out of turn the invariant lasts. */
  lemma {:induction false} StraightKeepsInv(run: seq<Action>, more: seq<Action>)
    requires IsRun(ANY, run + more) && Inv(After(ANY, run)) && Straight(more)
    ensures Inv(After(ANY, run + more))
    decreases |more|
  {
    if more == [] {
      assert run + more == run;
    } else {
      var front, a := more[..|more| - 1], more[|more| - 1];
      LastStep(ANY, run, more);
      StraightKeepsInv(run, front);
      StraightStep(After(ANY, run + front), a);
    }
  }

  lemma {:induction false} StraightStep(s: State, a: Action)
    requires Inv(s) && ANY.enabled(s, a) && !a.Stray?
    ensures Inv(ANY.step(s, a))
  {
    InvStep(s, a);
  }

  /** A proper run is a run. */
  lemma {:induction false} ProperIsRun(run: seq<Action>)
    requires IsRun(GATE, run)
    ensures IsRun(ANY, run) && After(ANY, run) == After(GATE, run)
  {
    if run != [] {
      ProperIsRun(run[..|run| - 1]);
    }
  }

  /** From s the actions, all straight, can be taken, and lead to an early run(). */
  ghost predicate OpensEarly(s: State, more: seq<Action>) {
    Straight(more) && exists t :: Leads(ANY, s, more, t) && Early(t)
  }

  lemma {:induction false} Prepend(s: State, a: Action, more: seq<Action>)
    requires Enabled(s, a) && !a.Stray? && OpensEarly(Step(s, a), more)
    ensures OpensEarly(s, [a] + more)
  {
    var t :| Leads(ANY, Step(s, a), more, t) && Early(t);
    assert ([a] + more)[1..] == more;
    assert Leads(ANY, s, [a] + more, t);
  }

  lemma {:induction false} EarlyNow(s: State, o: Obj)
    requires ThreadAt(s, o) == Past && Rank(At(s, o)) < 8
    ensures OpensEarly(s, [BeginRun(o)])
  {
    var t := Step(s, BeginRun(o));
    assert ThreadAt(t, o) == Running && At(t, o) == At(s, o);
    assert [BeginRun(o)][1..] == [] && Leads(ANY, t, [], t);
    assert Leads(ANY, s, [BeginRun(o)], t);
  }

  /** With the mutex free, a waiting thread can pass. */
  lemma {:induction false} WaitingPasses(s: State, o: Obj) returns (more: seq<Action>)
    requires s.startup == Free && ThreadAt(s, o) == Waiting && Rank(At(s, o)) < 8
    ensures OpensEarly(s, more)
  {
    var u := Step(s, EnterLock(o));
    var v := Step(u, EnterUnlock(o));
    assert ThreadAt(u, o) == Inside && At(u, o) == At(s, o);
    assert ThreadAt(v, o) == Past && At(v, o) == At(s, o);
    EarlyNow(v, o);
    Prepend(u, EnterUnlock(o), [BeginRun(o)]);
    more := [EnterUnlock(o)] + [BeginRun(o)];
    Prepend(s, EnterLock(o), more);
    more := [EnterLock(o)] + more;
  }

  /** The thread of an object that holds the mutex without its thread is spawned into an open gate. */
  lemma {:induction false} LockedPasses(s: State, o: Obj) returns (more: seq<Action>)
    requires s.startup == Free && At(s, o) == Locked
    ensures OpensEarly(s, more)
  {
    var id := SomeFreshId(s);
    var u := Step(s, Spawn(o, id));
    assert u.startup == Free && ThreadAt(u, o) == Waiting && At(u, o) == Spawned;
    more := WaitingPasses(u, o);
    Prepend(s, Spawn(o, id), more);
    more := [Spawn(o, id)] + more;
  }

  /** A thread inside the gate still owes an unlock, which frees the mutex under whoever locks it meanwhile. */
  lemma {:induction false} InsidePasses(s: State, p: Obj) returns (more: seq<Action>)
    requires s.startup == Free && ThreadAt(s, p) == Inside
    ensures OpensEarly(s, more)
  {
    var o := UnusedId(s.phase.Keys + {p});
    var t := UnusedId(s.busy.Keys);
    assert t !in s.busy && o !in s.phase && o != p;
    var c, l := Construct(o, t), LockStartup(o);
    var u := Step(s, c);
    assert At(u, o) == Calling && u.startup == Free && ThreadAt(u, p) == Inside;
    var v := Step(u, l);
    assert At(v, o) == Locked && ThreadAt(v, p) == Inside;
    more := UnlockedPasses(v, o, p);
    Prepend(u, l, more);
    more := [l] + more;
    Prepend(s, c, more);
    more := [c] + more;
  }

  lemma {:induction false} UnlockedPasses(s: State, o: Obj, p: Obj) returns (more: seq<Action>)
    requires At(s, o) == Locked && ThreadAt(s, p) == Inside
    ensures OpensEarly(s, more)
  {
    var w := Step(s, EnterUnlock(p));
    assert At(w, o) == Locked && w.startup == Free;
    more := LockedPasses(w, o);
    Prepend(s, EnterUnlock(p), more);
    more := [EnterUnlock(p)] + more;
  }

  lemma {:induction false} FreedOpensEarly(s: State) returns (more: seq<Action>)
    requires Inv(s) && s.startup != Free
    ensures OpensEarly(s.(startup := Free), more)
  {
    var o, u := s.startup.o, s.(startup := Free);
    assert ObjectOk(s, o) && At(u, o) == At(s, o) && ThreadAt(u, o) == ThreadAt(s, o);
    if s.startup.ByThread? {
      more := InsidePasses(u, o);
    } else if At(s, o) == Locked {
      more := LockedPasses(u, o);
    } else {
      more := WaitingPasses(u, o);
    }
  }

  /**
   Why start() must be called once, after construction, and on nothing else: start() unlocks whoever holds the mutex. At
   the end of any proper run, a start() out of turn on any object lets some object's run() begin before its own start()
   exactly when the mutex is held, by a constructor, an unstarted object or a thread in the gate.
   */
  lemma {:induction false} StrayStartOpensGateIff(run: seq<Action>, o: Obj)
    requires IsRun(GATE, run) && Enabled(After(GATE, run), Stray(o))
    ensures (exists more :: Straight(more) && IsRun(ANY, run + [Stray(o)] + more)
                            && Early(After(ANY, run + [Stray(o)] + more))) <==>
            After(GATE, run).startup != Free
  {
    RunKeepsInv(run);
    ProperIsRun(run);
    var s, strayed := After(GATE, run), run + [Stray(o)];
    Extend(ANY, run, Stray(o));
    if s.startup != Free {
      var more := FreedOpensEarly(s);
      var t :| Leads(ANY, s.(startup := Free), more, t) && Early(t);
      Continue(ANY, strayed, more, t);
    } else {
      assert After(ANY, strayed) == s;
      forall more | Straight(more) && IsRun(ANY, strayed + more) ensures !Early(After(ANY, strayed + more)) {
        StraightKeepsInv(strayed, more);
        NeverEarly(After(ANY, strayed + more));
      }
    }
  }

  // Deadlock

  /** A creator is waiting for gStartupMutex to construct one object while another of its own holds it. */
  ghost predicate NestedConstruction(s: State) {
    && s.startup.ByCreator?
    && var o := s.startup.o;
       o in s.creator
       && var calls := Stack(s, s.creator[o]);
          calls != [] && At(s, calls[|calls| - 1]) == Calling
  }

  /** One of the creator's objects holds gStartupMutex: it is in its constructor, or built and not started. */
  ghost predicate OwnsGate(s: State, t: Creator) {
    exists o :: o in s.creator && s.creator[o] == t && HoldsStartup(At(s, o))
  }

  /** The next step of whoever is inside gMutex. */
  function MapHolderNext(s: State): Action
    requires s.g != Free
  {
    var o := s.g.o;
    match At(s, o)
    case InMap => Insert(o)
    case Inserted => UnlockMap(o)
    case LeavingMap => Erase(o)
    case _ => UnlockMapAgain(o)
  }

  /** The next step towards releasing gStartupMutex; id is whatever thread id the system would hand out. */
  function ReleaseNext(s: State, id: ThreadId): Action
    requires s.startup != Free
  {
    var o := s.startup.o;
    if s.startup.ByThread? then EnterUnlock(o)
    else
      match At(s, o)
      case Locked => Spawn(o, id)
      case Spawned => if s.g == Free then LockMap(o) else MapHolderNext(s)
      case InMap => Insert(o)
      case Inserted => UnlockMap(o)
      case _ =>
        if o !in s.creator || Stack(s, s.creator[o]) == [] then Start(o)
        else
          var calls := Stack(s, s.creator[o]);
          var b := calls[|calls| - 1];
          match At(s, b)
          case BaseBuilt => FinishDerived(b)
          case Leaving => if s.g == Free then LockMapAgain(b) else MapHolderNext(s)
          case LeavingMap => Erase(b)
          case Erased => UnlockMapAgain(b)
          case _ => LockStartup(b)
  }

  lemma {:induction false} MapHolderMoves(s: State)
    requires Inv(s) && s.g != Free
    ensures Proper(s, MapHolderNext(s))
  {
    assert ObjectOk(s, s.g.o);
  }

  /** While gStartupMutex is held the step towards its release can be taken, unless a construction is nested. */
  lemma {:induction false} ReleaseEnabledIff(s: State, id: ThreadId)
    requires Inv(s) && s.startup != Free && FreshId(s, id)
    ensures Proper(s, ReleaseNext(s, id)) <==> !NestedConstruction(s)
  {
    var o := s.startup.o;
    assert ObjectOk(s, o);
    if s.g != Free {
      MapHolderMoves(s);
    }
    if s.startup.ByCreator? {
      Company(s);
    }
  }

  /** What the creator of the object that holds gStartupMutex may be inside. */
  lemma {:induction false} Company(s: State)
    requires Inv(s) && s.startup.ByCreator?
    ensures var o := s.startup.o;
            && o in s.creator
            && var calls := Stack(s, s.creator[o]);
               && (calls == [] ==> At(s, o) == Built)
               && (calls != [] ==>
                     var b := calls[|calls| - 1];
                     && b in s.creator && s.creator[b] == s.creator[o]
                     && (b == o <==> At(s, o) != Built && calls == [o])
                     && (b != o ==>
                           At(s, o) in {BaseBuilt, Built} && At(s, b) in {Calling, Leaving, LeavingMap, Erased}))
  {
    var o := s.startup.o;
    assert ObjectOk(s, o);
    var calls := Stack(s, s.creator[o]);
    assert StackOk(s, s.creator[o]);
    if calls != [] {
      assert ObjectOk(s, calls[0]) && ObjectOk(s, calls[|calls| - 1]);
      assert calls[0] in calls && calls[|calls| - 1] in calls;
    }
  }

  /** A creator that waits in a base constructor makes no other call and leaves none. */
  lemma {:induction false} WaiterIsStill(s: State, a: Action, t: Creator)
    requires Inv(s) && Enabled(s, a)
    requires Stack(s, t) != [] && At(s, Stack(s, t)[|Stack(s, t)| - 1]) == Calling
    ensures Caller(s, a) != Some(t) && Stack(Step(s, a), t) == Stack(s, t)
    ensures a.Start? ==> a.o in s.creator && s.creator[a.o] != t
  {
    assert ObjectOk(s, a.o);
    assert !Speaks(s, t);
    if Pops(a) {
      PopsInnermost(s, a);
    }
    StackAfter(s, a, t);
  }

  /** Only its own start() takes gStartupMutex from an object. */
  lemma {:induction false} HeldUntilStart(s: State, a: Action)
    requires Inv(s) && Proper(s, a) && s.startup.ByCreator? && a != Start(s.startup.o)
    ensures Step(s, a).startup == s.startup
  {
    assert ObjectOk(s, a.o);
  }

  /** A nested construction is for ever: no step, by anyone, undoes it. */
  lemma {:induction false} NestedForEver(s: State, a: Action)
    requires Inv(s) && NestedConstruction(s) && Proper(s, a)
    ensures NestedConstruction(Step(s, a))
  {
    var o := s.startup.o;
    var t := s.creator[o];
    var b := Stack(s, t)[|Stack(s, t)| - 1];
    assert ObjectOk(s, o) && ObjectOk(s, a.o);
    WaiterIsStill(s, a, t);
    HeldUntilStart(s, a);
    CreatorAfter(s, a, o);
    assert ObjectOk(s, b);
    WaiterWaits(s, a, b);
    OthersStay(s, a, b);
  }

  lemma {:induction false} WaiterWaits(s: State, a: Action, b: Obj)
    requires Enabled(s, a) && s.startup != Free && At(s, b) == Calling && ThreadOk(s, b)
    ensures a.o != b
  {
  }

  /** The object that holds gStartupMutex is the one its creator owns the gate by. */
  lemma {:induction false} OwnerHolds(s: State, t: Creator)
    requires Inv(s)
    ensures OwnsGate(s, t) <==> s.startup.ByCreator? && s.startup.o in s.creator && s.creator[s.startup.o] == t
  {
    if o :| o in s.creator && s.creator[o] == t && HoldsStartup(At(s, o)) {
      assert ObjectOk(s, o);
    } else if s.startup.ByCreator? {
      assert ObjectOk(s, s.startup.o);
    }
  }

  /** It arises in one way only: a creator constructs an object while another one of its own holds gStartupMutex. */
  lemma {:induction false} NestingIsByConstruct(s: State, a: Action)
    requires Inv(s) && Proper(s, a) && !NestedConstruction(s)
    ensures NestedConstruction(Step(s, a)) <==> a.Construct? && OwnsGate(s, a.t)
  {
    assert ObjectOk(s, a.o);
    if a.Construct? {
      OwnerHolds(s, a.t);
      ConstructNests(s, a);
    } else {
      OthersDoNotNest(s, a);
    }
  }

  lemma {:induction false} ConstructNests(s: State, a: Action)
    requires Inv(s) && Proper(s, a) && a.Construct? && !NestedConstruction(s)
    ensures NestedConstruction(Step(s, a)) <==>
            s.startup.ByCreator? && s.startup.o in s.creator && s.creator[s.startup.o] == a.t
  {
    assert ObjectOk(s, a.o);
    if s.startup.ByCreator? {
      var o := s.startup.o;
      assert ObjectOk(s, o);
      var t := s.creator[o];
      CreatorAfter(s, a, o);
      StackAfter(s, a, t);
      if t != a.t && Stack(s, t) != [] {
        StackStays(s, a, t);
      }
    }
  }

  /** The innermost call of another creator stands where it stood. */
  lemma {:induction false} StackStays(s: State, a: Action, t: Creator)
    requires Inv(s) && Enabled(s, a) && a.Construct? && t != a.t && Stack(s, t) != []
    ensures var b := Stack(s, t)[|Stack(s, t)| - 1]; At(Step(s, a), b) == At(s, b)
  {
    var calls := Stack(s, t);
    var b := calls[|calls| - 1];
    assert StackOk(s, t) && ObjectOk(s, b) && b in calls;
    OthersStay(s, a, b);
  }

  lemma {:induction false} OthersDoNotNest(s: State, a: Action)
    requires Inv(s) && Proper(s, a) && !a.Construct? && !NestedConstruction(s)
    ensures !NestedConstruction(Step(s, a))
  {
    InvStep(s, a);
    var r := Step(s, a);
    if NestedConstruction(r) {
      Company(r);
      var o := r.startup.o;
      var t := r.creator[o];
      var b := Stack(r, t)[|Stack(r, t)| - 1];
      assert ObjectOk(r, o);
      WaitedBefore(s, a, b);
      HeldBefore(s, a);
      CreatorAfter(s, a, o);
      CreatorAfter(s, a, b);
      WaiterIsInnermost(s, b);
    }
  }

  lemma {:induction false} WaiterIsInnermost(s: State, b: Obj)
    requires Inv(s) && At(s, b) == Calling
    ensures Innermost(s, b)
  {
    assert ObjectOk(s, b) && StackOk(s, s.creator[b]);
  }

  /** Whoever waits in a base constructor after a step that constructs nothing was waiting before it. */
  lemma {:induction false} WaitedBefore(s: State, a: Action, b: Obj)
    requires Inv(s) && Enabled(s, a) && !a.Construct? && At(Step(s, a), b) == Calling
    ensures At(s, b) == Calling
  {
    if b != a.o {
      OthersStay(s, a, b);
    }
  }

  /** With somebody of the same creator waiting, the mutex was not just taken. */
  lemma {:induction false} HeldBefore(s: State, a: Action)
    requires Inv(s) && Proper(s, a) && Step(s, a).startup.ByCreator? && !a.LockStartup?
    ensures s.startup == Step(s, a).startup
  {
    assert ObjectOk(s, a.o);
  }

  /** How many steps are left in gMutex, and in the destructor a creator is busy with. */
  function MapLeft(s: State): nat {
    if s.g == Free then 0
    else if At(s, s.g.o) in {InMap, LeavingMap} then 2 else 1
  }

  function BusyLeft(s: State, o: Obj): nat {
    if o in s.creator && Stack(s, s.creator[o]) != [] then
      var calls := Stack(s, s.creator[o]);
      match At(s, calls[|calls| - 1])
      case Leaving => 6
      case LeavingMap => 2
      case Erased => 1
      case _ => 0
    else 0
  }

  function Distance(s: State): nat {
    if s.startup == Free then 0
    else if s.startup.ByThread? || Rank(At(s, s.startup.o)) > 8 then 1
    else 10 * (8 - Rank(At(s, s.startup.o))) + MapLeft(s) + BusyLeft(s, s.startup.o)
  }

  lemma {:induction false} ReleaseProgress(s: State, id: ThreadId)
    requires Inv(s) && s.startup != Free && FreshId(s, id) && !NestedConstruction(s)
    ensures var t := Step(s, ReleaseNext(s, id)); Distance(t) < Distance(s) && !NestedConstruction(t)
  {
    ReleaseEnabledIff(s, id);
    NestingIsByConstruct(s, ReleaseNext(s, id));
    assert ObjectOk(s, s.startup.o);
    if s.startup.ByCreator? {
      Company(s);
      var o := s.startup.o;
      var calls := Stack(s, s.creator[o]);
      if calls == [] || calls == [o] {
        BuilderComesCloser(s, id);
      } else {
        DestructorComesCloser(s, id);
      }
    }
  }

  lemma {:induction false} BuilderComesCloser(s: State, id: ThreadId)
    requires Inv(s) && s.startup.ByCreator? && s.startup.o in s.creator
    requires Stack(s, s.creator[s.startup.o]) in {[], [s.startup.o]}
    requires Proper(s, ReleaseNext(s, id))
    ensures Distance(Step(s, ReleaseNext(s, id))) < Distance(s)
  {
    var o := s.startup.o;
    assert ObjectOk(s, o);
    match At(s, o)
    case Spawned =>
      if s.g != Free {
        HolderComesCloser(s, id);
      } else {
        OwnComesCloser(s, id);
      }
    case BaseBuilt => FinishComesCloser(s, id);
    case Built =>
    case _ => OwnComesCloser(s, id);
  }

  lemma {:induction false} OwnComesCloser(s: State, id: ThreadId)
    requires Inv(s) && s.startup.ByCreator? && s.startup.o in s.creator
    requires Stack(s, s.creator[s.startup.o]) == [s.startup.o]
    requires At(s, s.startup.o) in {Locked, Spawned, InMap, Inserted}
    requires At(s, s.startup.o) == Spawned ==> s.g == Free
    ensures Distance(Step(s, ReleaseNext(s, id))) < Distance(s)
  {
    assert ObjectOk(s, s.startup.o);
  }

  lemma {:induction false} FinishComesCloser(s: State, id: ThreadId)
    requires Inv(s) && s.startup.ByCreator? && s.startup.o in s.creator
    requires Stack(s, s.creator[s.startup.o]) == [s.startup.o] && At(s, s.startup.o) == BaseBuilt
    ensures Distance(Step(s, ReleaseNext(s, id))) < Distance(s)
  {
    assert ObjectOk(s, s.startup.o);
  }

  /** Another creator, in its destructor, comes closer to freeing gMutex. */
  lemma {:induction false} HolderComesCloser(s: State, id: ThreadId)
    requires Inv(s) && s.startup.ByCreator? && s.startup.o in s.creator && s.g != Free
    requires Stack(s, s.creator[s.startup.o]) == [s.startup.o] && At(s, s.startup.o) == Spawned
    ensures Distance(Step(s, ReleaseNext(s, id))) < Distance(s)
  {
    var o, a := s.startup.o, ReleaseNext(s, id);
    assert ObjectOk(s, o) && ObjectOk(s, s.g.o);
    var t := s.creator[o];
    HolderIsOther(s, t, o);
    StackAfter(s, a, t);
    OthersStay(s, a, o);
  }

  lemma {:induction false} HolderIsOther(s: State, t: Creator, b: Obj)
    requires Inv(s) && s.g != Free && t in s.creator.Values && Stack(s, t) != []
    requires b == Stack(s, t)[|Stack(s, t)| - 1] && !HoldsMap(At(s, b))
    ensures s.g.o in s.creator && s.creator[s.g.o] != t && MapHolderNext(s).o == s.g.o
  {
    var p := s.g.o;
    assert ObjectOk(s, p) && StackOk(s, t);
  }

  lemma {:induction false} DestructorComesCloser(s: State, id: ThreadId)
    requires Inv(s) && s.startup.ByCreator? && !NestedConstruction(s) && s.startup.o in s.creator
    requires Stack(s, s.creator[s.startup.o]) !in {[], [s.startup.o]}
    requires Proper(s, ReleaseNext(s, id))
    ensures Distance(Step(s, ReleaseNext(s, id))) < Distance(s)
  {
    var o := s.startup.o;
    var t := s.creator[o];
    assert ObjectOk(s, o) && StackOk(s, t);
    Company(s);
    var calls := Stack(s, t);
    var b := calls[|calls| - 1];
    assert ObjectOk(s, b);
    if At(s, b) == Leaving && s.g != Free {
      HolderLetsLeave(s, id, b);
    } else {
      LeaverComesCloser(s, id, b);
    }
  }

  lemma {:induction false} HolderLetsLeave(s: State, id: ThreadId, b: Obj)
    requires Inv(s) && s.startup.ByCreator? && s.startup.o in s.creator && b != s.startup.o
    requires At(s, s.startup.o) in {BaseBuilt, Built} && At(s, b) == Leaving && s.g != Free
    requires b in s.creator && s.creator[b] == s.creator[s.startup.o] && Innermost(s, b)
    ensures Distance(Step(s, ReleaseNext(s, id))) < Distance(s)
  {
    var o, a, t := s.startup.o, ReleaseNext(s, id), s.creator[b];
    assert ObjectOk(s, o) && ObjectOk(s, s.g.o);
    HolderIsOther(s, t, b);
    StackAfter(s, a, t);
    OthersStay(s, a, o);
    OthersStay(s, a, b);
  }

  lemma {:induction false} LeaverComesCloser(s: State, id: ThreadId, b: Obj)
    requires Inv(s) && s.startup.ByCreator? && s.startup.o in s.creator && b != s.startup.o
    requires At(s, s.startup.o) in {BaseBuilt, Built} && At(s, b) in {Leaving, LeavingMap, Erased}
    requires b in s.creator && s.creator[b] == s.creator[s.startup.o] && Innermost(s, b)
    requires At(s, b) == Leaving ==> s.g == Free
    ensures Distance(Step(s, ReleaseNext(s, id))) < Distance(s)
  {
    var o, t, a := s.startup.o, s.creator[b], ReleaseNext(s, id);
    assert ObjectOk(s, o) && ObjectOk(s, b) && StackOk(s, t);
    assert a == if At(s, b) == Leaving then LockMapAgain(b)
                else if At(s, b) == LeavingMap then Erase(b)
                else UnlockMapAgain(b);
    OthersStay(s, a, o);
    StackAfter(s, a, t);
    if At(s, b) == Erased {
      LastLeaves(s, o, b);
    }
  }

  lemma {:induction false} LastLeaves(s: State, o: Obj, b: Obj)
    requires Inv(s) && s.startup == ByCreator(o) && o in s.creator && b != o
    requires At(s, o) in {BaseBuilt, Built} && At(s, b) == Erased
    requires b in s.creator && s.creator[b] == s.creator[o] && Innermost(s, b)
    ensures Distance(Step(s, UnlockMapAgain(b))) < Distance(s)
  {
    var t, a := s.creator[b], UnlockMapAgain(b);
    assert ObjectOk(s, b) && StackOk(s, t);
    OthersStay(s, a, o);
    StackAfter(s, a, t);
    if |Stack(s, t)| == 2 {
      assert At(s, Stack(s, t)[0]) == BaseBuilt && Stack(s, t)[0] != b;
      OthersStay(s, a, Stack(s, t)[0]);
    }
  }

  lemma {:induction false} UnusedId(ids: set<ThreadId>) returns (n: ThreadId)
    ensures forall i :: i in ids ==> i < n
  {
    if ids == {} {
      n := 0;
    } else {
      var i :| i in ids;
      var m := UnusedId(ids - {i});
      n := if i < m then m else i + 1;
      assert forall j :: j in ids ==> j == i || j in ids - {i};
    }
  }

  lemma {:induction false} SomeFreshId(s: State) returns (id: ThreadId)
    ensures FreshId(s, id)
  {
    id := UnusedId(s.mID.Values);
    assert forall o :: o in s.mID ==> s.mID[o] in s.mID.Values;
  }

  lemma {:induction false} ReleaseOne(s: State) returns (a: Action, t: State)
    requires Inv(s) && !NestedConstruction(s) && s.startup != Free
    ensures Proper(s, a) && t == Step(s, a)
    ensures Inv(t) && !NestedConstruction(t) && Distance(t) < Distance(s) && KeepWaiting(s, t)
  {
    var id := SomeFreshId(s);
    a := ReleaseNext(s, id);
    t := Step(s, a);
    ReleaseEnabledIff(s, id);
    ReleaseProgress(s, id);
    InvStep(s, a);
    forall o | ThreadAt(s, o) == Waiting ensures ThreadAt(t, o) == Waiting {
      WaitsOn(s, a, o);
    }
  }

  /** Threads that wait at the gate wait on. */
  ghost predicate KeepWaiting(s: State, t: State) {
    forall o :: ThreadAt(s, o) == Waiting ==> ThreadAt(t, o) == Waiting
  }

  /** A waiting thread moves by its own lock only. */
  lemma {:induction false} WaitsOn(s: State, a: Action, o: Obj)
    requires Inv(s) && Enabled(s, a) && ThreadAt(s, o) == Waiting && a != EnterLock(o)
    ensures ThreadAt(Step(s, a), o) == Waiting
  {
    if o != a.o {
      OthersStay(s, a, o);
    } else {
      assert ObjectOk(s, o);
    }
  }

  lemma {:induction false} ReleaseFrom(s: State) returns (more: seq<Action>, t: State)
    requires Inv(s) && !NestedConstruction(s)
    ensures Leads(GATE, s, more, t) && t.startup == Free && KeepWaiting(s, t)
    decreases Distance(s)
  {
    if s.startup == Free {
      more, t := [], s;
    } else {
      var a, u := ReleaseOne(s);
      var rest;
      rest, t := ReleaseFrom(u);
      more := [a] + rest;
      assert more[1..] == rest;
    }
  }

  /** No deadlock: from every reachable state without a nested construction, gStartupMutex can be released. */
  lemma {:induction false} CanRelease(run: seq<Action>) returns (more: seq<Action>)
    requires IsRun(GATE, run) && !NestedConstruction(After(GATE, run))
    ensures IsRun(GATE, run + more) && After(GATE, run + more).startup == Free
  {
    RunKeepsInv(run);
    var t;
    more, t := ReleaseFrom(After(GATE, run));
    Continue(GATE, run, more, t);
  }

  /** Some creator in the run constructed an object while another one of its own held gStartupMutex. */
  ghost predicate Nests(run: seq<Action>) {
    run != [] &&
    var front, a := run[..|run| - 1], run[|run| - 1];
    Nests(front) || (a.Construct? && OwnsGate(After(GATE, front), a.t))
  }

  lemma {:induction false} NestedIff(run: seq<Action>)
    requires IsRun(GATE, run)
    ensures NestedConstruction(After(GATE, run)) <==> Nests(run)
  {
    if run != [] {
      var front, a := run[..|run| - 1], run[|run| - 1];
      NestedIff(front);
      RunKeepsInv(front);
      if Nests(front) {
        NestedForEver(After(GATE, front), a);
      } else {
        NestingIsByConstruct(After(GATE, front), a);
      }
    }
  }

  lemma {:induction false} NestedStays(run: seq<Action>, more: seq<Action>)
    requires IsRun(GATE, run + more) && Nests(run)
    ensures Nests(run + more)
    decreases |more|
  {
    if more == [] {
      assert run + more == run;
    } else {
      assert (run + more)[..|run + more| - 1] == run + more[..|more| - 1];
      NestedStays(run, more[..|more| - 1]);
    }
  }

  /**
   Deadlock, over runs: gStartupMutex can still come free exactly when no creator has constructed an object while
   another one of its own was in its constructor or waiting to be started.
   */
  lemma {:induction false} ReleasableIff(run: seq<Action>)
    requires IsRun(GATE, run)
    ensures (exists more :: IsRun(GATE, run + more) && After(GATE, run + more).startup == Free) <==> !Nests(run)
  {
    NestedIff(run);
    if Nests(run) {
      forall more | IsRun(GATE, run + more) ensures After(GATE, run + more).startup != Free {
        NestedStays(run, more);
        NestedIff(run + more);
      }
    } else {
      var more := CanRelease(run);
    }
  }

  lemma {:induction false} PassFreeGate(s: State, o: Obj) returns (more: seq<Action>, t: State)
    requires s.startup == Free && ThreadAt(s, o) == Waiting
    ensures Leads(GATE, s, more, t) && BeginRun(o) in more
  {
    var a, b, c := EnterLock(o), EnterUnlock(o), BeginRun(o);
    var u := Step(s, a);
    var v := Step(u, b);
    t := Step(v, c);
    assert ThreadAt(u, o) == Inside && ThreadAt(v, o) == Past;
    LeadsBy(GATE, v, c, [], t);
    LeadsBy(GATE, u, b, [c] + [], t);
    LeadsBy(GATE, s, a, [b] + ([c] + []), t);
    more := [a] + ([b] + ([c] + []));
    assert more[2] == c;
  }

  /** Behind a nested construction every waiting thread waits for ever. */
  lemma {:induction false} StuckWaits(run: seq<Action>, more: seq<Action>, o: Obj)
    requires IsRun(GATE, run + more) && Nests(run) && ThreadAt(After(GATE, run), o) == Waiting
    ensures ThreadAt(After(GATE, run + more), o) == Waiting
    decreases |more|
  {
    if more == [] {
      assert run + more == run;
    } else {
      var front, a := more[..|more| - 1], more[|more| - 1];
      LastStep(GATE, run, more);
      StuckWaits(run, front, o);
      RunKeepsInv(run + front);
      NestedStays(run, front);
      NestedIff(run + front);
      WaitsOn(After(GATE, run + front), a, o);
    }
  }

  lemma {:induction false} NeverRuns(run: seq<Action>, more: seq<Action>, o: Obj)
    requires IsRun(GATE, run + more) && Nests(run) && ThreadAt(After(GATE, run), o) == Waiting
    ensures BeginRun(o) !in more
  {
    forall i | 0 <= i < |more| ensures more[i] != BeginRun(o) {
      EnabledLater(GATE, run, more, i);
      StuckWaits(run, more[..i], o);
      WaitingDoesNotRun(After(GATE, run + more[..i]), more[i], o);
    }
  }

  lemma {:induction false} WaitingDoesNotRun(s: State, a: Action, o: Obj)
    requires GATE.enabled(s, a) && ThreadAt(s, o) == Waiting
    ensures a != BeginRun(o)
  {
  }

  lemma {:induction false} PassFrom(s: State, o: Obj) returns (more: seq<Action>, t: State)
    requires Inv(s) && !NestedConstruction(s) && ThreadAt(s, o) == Waiting
    ensures Leads(GATE, s, more, t) && BeginRun(o) in more
  {
    var free, u := ReleaseFrom(s);
    var pass;
    pass, t := PassFreeGate(u, o);
    LeadsOn(GATE, s, free, u, pass, t);
    more := free + pass;
  }

  /** A thread waiting at the gate can still come to its run() exactly when no construction in the run was nested. */
  lemma {:induction false} RunnableIff(run: seq<Action>, o: Obj)
    requires IsRun(GATE, run) && ThreadAt(After(GATE, run), o) == Waiting
    ensures (exists more :: IsRun(GATE, run + more) && BeginRun(o) in more) <==> !Nests(run)
  {
    NestedIff(run);
    if Nests(run) {
      forall more | IsRun(GATE, run + more) ensures BeginRun(o) !in more {
        NeverRuns(run, more, o);
      }
    } else {
      RunKeepsInv(run);
      var more, t := PassFrom(After(GATE, run), o);
      Continue(GATE, run, more, t);
    }
  }

  // When gThreads is complete

  /** Every object inserted and not yet erased has its entry. */
  ghost predicate Complete(s: State) {
    forall o :: 5 <= Rank(At(s, o)) <= 10 ==>
      o in s.mID && s.mID[o] in s.gThreads && s.gThreads[s.mID[o]] == o
  }

  /** An object is inserted under the thread id of another one that has outlived its thread. */
  ghost predicate Reuses(s: State, a: Action) {
    && a.Insert? && a.o in s.mID
    && exists p :: p != a.o && 5 <= Rank(At(s, p)) <= 10 && p in s.mID && s.mID[p] == s.mID[a.o]
  }

  lemma {:induction false} InsertComplete(s: State, a: Action)
    requires Inv(s) && Complete(s) && Enabled(s, a) && a.Insert?
    ensures Complete(Step(s, a)) <==> !Reuses(s, a)
  {
    var o, t := a.o, Step(s, a);
    assert ObjectOk(s, o) && At(t, o) == Inserted;
    var id := s.mID[o];
    if id in s.gThreads {
      var p := s.gThreads[id];
      assert p != o && t.gThreads[id] == p;
      assert Reuses(s, a) && !Complete(t);
    } else {
      forall p | 5 <= Rank(At(t, p)) <= 10
        ensures p in t.mID && t.mID[p] in t.gThreads && t.gThreads[t.mID[p]] == p
      {
        if p != o {
          OthersStay(s, a, p);
        }
      }
    }
  }

  lemma {:induction false} OthersComplete(s: State, a: Action)
    requires Inv(s) && Complete(s) && Enabled(s, a) && !a.Insert?
    ensures Complete(Step(s, a))
  {
    var t := Step(s, a);
    assert ObjectOk(s, a.o);
    forall p | 5 <= Rank(At(t, p)) <= 10
      ensures p in t.mID && t.mID[p] in t.gThreads && t.gThreads[t.mID[p]] == p
    {
      if p != a.o {
        OthersStay(s, a, p);
      } else {
        ListedStays(s, a);
      }
      KeepsEntry(s, a, p);
    }
  }

  lemma {:induction false} ListedStays(s: State, a: Action)
    requires Enabled(s, a) && !a.Insert? && 5 <= Rank(At(Step(s, a), a.o)) <= 10
    ensures 5 <= Rank(At(s, a.o)) <= 10 && !a.Erase? && !a.Spawn?
  {
  }

  lemma {:induction false} KeepsEntry(s: State, a: Action, p: Obj)
    requires Enabled(s, a) && !a.Insert? && ThreadOk(s, a.o)
    requires p in s.mID && s.mID[p] in s.gThreads && s.gThreads[s.mID[p]] == p
    requires a.Erase? ==> p != a.o && 5 <= Rank(At(s, a.o)) <= 10 && Complete(s)
    requires a.Spawn? ==> p != a.o
    ensures var t := Step(s, a); p in t.mID && t.mID[p] in t.gThreads && t.gThreads[t.mID[p]] == p
  {
  }

  ghost predicate AlwaysComplete(run: seq<Action>) {
    Complete(After(GATE, run)) && (run != [] ==> AlwaysComplete(run[..|run| - 1]))
  }

  ghost predicate NeverReuses(run: seq<Action>) {
    run != [] ==>
      NeverReuses(run[..|run| - 1]) && !Reuses(After(GATE, run[..|run| - 1]), run[|run| - 1])
  }

  /**
   gThreads holds every object between its insertion and its erasure, at all times, exactly when no object was ever
   inserted under the thread id of another one that had outlived its thread and was still there.
   */
  lemma {:induction false} CompleteIff(run: seq<Action>)
    requires IsRun(GATE, run)
    ensures AlwaysComplete(run) <==> NeverReuses(run)
  {
    if run != [] {
      var front, a := run[..|run| - 1], run[|run| - 1];
      CompleteIff(front);
      RunKeepsInv(front);
      if AlwaysComplete(front) {
        if a.Insert? {
          InsertComplete(After(GATE, front), a);
        } else {
          OthersComplete(After(GATE, front), a);
        }
      }
    }
  }

  // Examples: one creator

  /** The life of an object whose creator does nothing else, stage by stage. */
  function StageAction(k: nat): Action {
    match k
    case 0 => Construct(0, 0) case 1 => LockStartup(0) case 2 => Spawn(0, 0) case 3 => LockMap(0)
    case 4 => Insert(0) case 5 => UnlockMap(0) case 6 => FinishDerived(0) case 7 => Start(0)
    case 8 => EnterLock(0) case 9 => EnterUnlock(0) case 10 => BeginRun(0) case _ => EndRun(0)
  }

  function StageEntry(k: nat): Entry {
    if k < 3 then NoThread
    else if k <= 8 then Waiting
    else if k == 9 then Inside
    else if k == 10 then Past
    else if k == 11 then Running
    else Finished
  }

  const BUILT_STAGE := 7
  const LAST_STAGE := 12

  /** Object 0 of creator 0 is alone and has come to stage k. */
  ghost predicate Alone(s: State, k: nat) {
    && Rank(At(s, 0)) == (if k <= 8 then k else 8) && ThreadAt(s, 0) == StageEntry(k)
    && At(s, 1) == Absent && 0 in s.creator && s.creator[0] == 0
    && Stack(s, 0) == (if 1 <= k <= 6 then [0] else [])
    && s.startup == (if 2 <= k <= 7 then ByCreator(0) else if k == 9 then ByThread(0) else Free)
    && s.g == (if 4 <= k <= 5 then ByCreator(0) else Free)
    && s.mID.Keys == (if k < 3 then {} else {0})
  }

  lemma {:induction false} AloneAdvances(s: State, k: nat)
    requires 1 <= k < LAST_STAGE && Alone(s, k)
    ensures Proper(s, StageAction(k)) && Alone(Step(s, StageAction(k)), k + 1)
  {
    if k <= 3 {
      AloneLocks(s, k);
    } else if k <= BUILT_STAGE {
      AloneBuilds(s, k);
    }
  }

  lemma {:induction false} AloneLocks(s: State, k: nat)
    requires 1 <= k <= 3 && Alone(s, k)
    ensures Proper(s, StageAction(k)) && Alone(Step(s, StageAction(k)), k + 1)
  {
  }

  lemma {:induction false} AloneBuilds(s: State, k: nat)
    requires 4 <= k <= BUILT_STAGE && Alone(s, k)
    ensures Proper(s, StageAction(k)) && Alone(Step(s, StageAction(k)), k + 1)
  {
  }

  lemma {:induction false} AloneReaches(s: State, k: nat, last: nat) returns (more: seq<Action>, t: State)
    requires 1 <= k <= last <= LAST_STAGE && Alone(s, k)
    ensures Leads(GATE, s, more, t) && Alone(t, last)
    decreases last - k
  {
    if k == last {
      more, t := [], s;
    } else {
      AloneAdvances(s, k);
      var rest;
      rest, t := AloneReaches(Step(s, StageAction(k)), k + 1, last);
      more := [StageAction(k)] + rest;
      LeadsBy(GATE, s, StageAction(k), rest, t);
    }
  }

  lemma {:induction false} AloneHappens(last: nat) returns (run: seq<Action>)
    requires 1 <= last <= LAST_STAGE
    ensures IsRun(GATE, run) && Alone(After(GATE, run), last)
  {
    var a := StageAction(0);
    assert Proper(INIT, a) && Alone(Step(INIT, a), 1);
    var more, t := AloneReaches(Step(INIT, a), 1, last);
    LeadsBy(GATE, INIT, a, more, t);
    Continue(GATE, [], [a] + more, t);
    run := [] + ([a] + more);
  }

  lemma {:induction false} SecondConstruct(s: State, last: nat)
    requires 6 <= last <= BUILT_STAGE && Alone(s, last)
    ensures var a := Construct(1, 0); Proper(s, a) && OwnsGate(s, 0) && Rank(At(Step(s, a), 0)) == last
  {
    OthersStay(s, Construct(1, 0), 0);
  }

  /** Both ways into it: constructing a second object inside the first one's constructor, or before its start. */
  lemma {:induction false} NestingHappens(last: Phase) returns (run: seq<Action>)
    requires last in {BaseBuilt, Built}
    ensures IsRun(GATE, run) && Nests(run) && At(After(GATE, run), 0) == last
  {
    run := AloneHappens(Rank(last));
    SecondConstruct(After(GATE, run), Rank(last));
    var c := Construct(1, 0);
    Extend(GATE, run, c);
    assert (run + [c])[..|run|] == run;
    run := run + [c];
  }

  lemma {:induction false} StrayPossible(s: State)
    requires Alone(s, Rank(BaseBuilt))
    ensures Enabled(s, Stray(0)) && s.startup != Free
  {
  }

  /** A proper run with a start() out of turn possible at its end, and what can come of it. */
  lemma {:induction false} StrayHappens() returns (run: seq<Action>, more: seq<Action>)
    ensures IsRun(GATE, run) && Enabled(After(GATE, run), Stray(0))
    ensures Straight(more) && IsRun(ANY, run + [Stray(0)] + more) && Early(After(ANY, run + [Stray(0)] + more))
  {
    run := AloneHappens(Rank(BaseBuilt));
    StrayPossible(After(GATE, run));
    StrayStartOpensGateIff(run, 0);
    more :| Straight(more) && IsRun(ANY, run + [Stray(0)] + more) && Early(After(ANY, run + [Stray(0)] + more));
  }

  /** Object 0 has outlived its thread, and object 1 has come to stage k with the thread id of the first. */
  ghost predicate Second(s: State, k: nat, id: ThreadId) {
    && At(s, 0) == Started && ThreadAt(s, 0) == Finished && 0 in s.mID && s.mID[0] == id
    && Rank(At(s, 1)) == k
    && s.startup == (if k >= 2 then ByCreator(1) else Free)
    && s.g == (if k >= 4 then ByCreator(1) else Free)
    && s.mID.Keys == (if k < 3 then {0} else {0, 1}) && (k >= 3 ==> s.mID[1] == id)
  }

  function SecondAction(k: nat, id: ThreadId): Action {
    match k
    case 0 => Construct(1, 0)
    case 1 => LockStartup(1)
    case 2 => Spawn(1, id)
    case _ => LockMap(1)
  }

  lemma {:induction false} SecondAdvances(s: State, k: nat, id: ThreadId)
    requires k <= 3 && Second(s, k, id) && (k == 0 ==> Stack(s, 0) == [])
    ensures Proper(s, SecondAction(k, id)) && Second(Step(s, SecondAction(k, id)), k + 1, id)
  {
    OthersStay(s, SecondAction(k, id), 0);
  }

  lemma {:induction false} SecondReaches(s: State, k: nat, id: ThreadId) returns (more: seq<Action>, t: State)
    requires k <= 4 && Second(s, k, id) && (k == 0 ==> Stack(s, 0) == [])
    ensures Leads(GATE, s, more, t) && Second(t, 4, id)
    decreases 4 - k
  {
    if k == 4 {
      more, t := [], s;
    } else {
      SecondAdvances(s, k, id);
      var rest;
      rest, t := SecondReaches(Step(s, SecondAction(k, id)), k + 1, id);
      more := [SecondAction(k, id)] + rest;
      LeadsBy(GATE, s, SecondAction(k, id), rest, t);
    }
  }

  lemma {:induction false} SecondReuses(s: State, id: ThreadId)
    requires Second(s, 4, id)
    ensures Proper(s, Insert(1)) && Reuses(s, Insert(1))
  {
    assert s.mID[0] == s.mID[1];
  }

  /** It can happen: the second object of one creator takes over the thread id of the first. */
  lemma {:induction false} ReuseHappens() returns (run: seq<Action>)
    ensures IsRun(GATE, run) && !AlwaysComplete(run)
  {
    var first := AloneHappens(LAST_STAGE);
    var s := After(GATE, first);
    var more, t := SecondReaches(s, 0, s.mID[0]);
    Continue(GATE, first, more, t);
    SecondReuses(t, s.mID[0]);
    Extend(GATE, first + more, Insert(1));
    run := first + more + [Insert(1)];
    assert run[..|run| - 1] == first + more;
    CompleteIff(run);
  }
}
