/**
 The text protocol: how a request is told from another, what it is answered, and what a client
 can read back out of the answer.
 */
module ClientProtocol {
  import opened CStrings
  import opened SdkDatabase

  const BUFF_SIZE: nat := 64

  datatype Command = SupportSdks | LvrVersion | SvrVersion | LvrFeature | SvrFeature

  function Word(k: Command): Text {
    match k
    case SupportSdks => "support_sdks"
    case LvrVersion => "lvr_sdk_version"
    case SvrVersion => "svr_sdk_version"
    case LvrFeature => "lvr_feature:"
    case SvrFeature => "svr_feature:"
  }

  /** How many characters of the word are compared; only "suppor" of the first one. */
  function Width(k: Command): nat {
    match k
    case SupportSdks => 6
    case LvrVersion => 15
    case SvrVersion => 15
    case LvrFeature => 12
    case SvrFeature => 12
  }

  function Family(k: Command): Text {
    match k
    case SupportSdks => ""
    case LvrVersion => "lvr"
    case LvrFeature => "lvr"
    case SvrVersion => "svr"
    case SvrFeature => "svr"
  }

  predicate Guard(k: Command, r: Text) {
    StrNCaseEq(r, Word(k), Width(k))
  }

  predicate IsQuit(r: Text) {
    StrNEq(r, "quit", 4)
  }

  datatype Answer = Refused(code: int) | Reply(text: Text)

  function Perform(db: seq<Sdk>, k: Command, r: Text): Answer
    requires Guard(k, r)
  {
    match k
    case SupportSdks => TypesAnswer(db)
    case LvrVersion => VersionAnswer(db, "lvr")
    case SvrVersion => VersionAnswer(db, "svr")
    case LvrFeature => FeatureAnswer(db, "lvr", GuardedArgument(k, r))
    case SvrFeature => FeatureAnswer(db, "svr", GuardedArgument(k, r))
  }

  function GuardedArgument(k: Command, r: Text): Text
    requires Guard(k, r)
  {
    From(r, Width(k))
  }

  function TypesAnswer(db: seq<Sdk>): Answer {
    TypeNames(db);
    var types := Join(Types(db));
    if types == "" then Refused(-2) else Reply(Take(types, BUFF_SIZE))
  }

  function VersionAnswer(db: seq<Sdk>, family: Text): Answer {
    match Find(db, family)
    case None => Refused(-3)
    case Some(sdk) => if sdk.version == "" then Refused(-2) else Reply(Take(sdk.version, BUFF_SIZE))
  }

  function FeatureAnswer(db: seq<Sdk>, family: Text, v: Text): Answer {
    match Find(db, family)
    case None => Refused(-3)
    case Some(sdk) => Reply(Decimal(FeatureOf(sdk, v)))
  }

  /** Try the commands in the given order; the first whose guard holds answers. */
  function Dispatch(order: seq<Command>, db: seq<Sdk>, r: Text): Answer {
    if order == [] then Refused(-1)
    else if Guard(order[0], r) then Perform(db, order[0], r)
    else Dispatch(order[1..], db, r)
  }

  const ORDER := [SupportSdks, LvrVersion, SvrVersion, LvrFeature, SvrFeature]

  /** A refusal is sent as its decimal code. */
  function Render(a: Answer): Text {
    match a
    case Refused(code) => if code < 0 then "-" + Decimal(-code) else Decimal(code)
    case Reply(text) => text
  }

  function Answered(db: seq<Sdk>, r: Text): Answer {
    Dispatch(ORDER, db, r)
  }

  /** The text written back for a request that is not "quit". */
  function Response(db: seq<Sdk>, r: Text): Text {
    Render(Answered(db, r))
  }

  lemma {:induction false} GuardSpelled(k: Command, r: Text)
    requires Guard(k, r)
    ensures |r| >= Width(k)
    ensures forall i :: 0 <= i < Width(k) ==> Lower(r[i]) == Lower(Word(k)[i])
  {
    var a, b := Take(r, Width(k)), Take(Word(k), Width(k));
    assert |LowerAll(a)| == |LowerAll(b)|;
    forall i | 0 <= i < Width(k) ensures Lower(r[i]) == Lower(Word(k)[i]) {
      assert LowerAll(a)[i] == LowerAll(b)[i];
    }
  }

  lemma {:induction false} QuitSpelled(r: Text)
    ensures IsQuit(r) ==> |r| >= 4 && r[0] == 'q'
  {
    if IsQuit(r) {
      assert |Take(r, 4)| == |Take("quit", 4)|;
    }
  }

  /** No text satisfies two of the tests made on a request. */
  lemma {:induction false} GuardsExclusive(j: Command, k: Command, r: Text)
    requires Guard(j, r) && Guard(k, r)
    ensures j == k && !IsQuit(r)
  {
    GuardSpelled(j, r);
    GuardSpelled(k, r);
    assert Lower(r[0]) == Lower(Word(j)[0]) == Lower(Word(k)[0]);
    assert Lower(r[4]) == Lower(Word(j)[4]) == Lower(Word(k)[4]);
    QuitSpelled(r);
  }

  lemma {:induction false} DispatchIsGuarded(order: seq<Command>, db: seq<Sdk>, k: Command, r: Text)
    requires k in order && Guard(k, r)
    ensures Dispatch(order, db, r) == Perform(db, k, r)
  {
    if Guard(order[0], r) {
      GuardsExclusive(order[0], k, r);
    } else {
      DispatchIsGuarded(order[1..], db, k, r);
    }
  }

  lemma {:induction false} AnsweredIs(db: seq<Sdk>, k: Command, r: Text)
    requires Guard(k, r)
    ensures Answered(db, r) == Perform(db, k, r)
  {
    assert k in ORDER;
    DispatchIsGuarded(ORDER, db, k, r);
  }

  lemma {:induction false} DispatchUnguarded(order: seq<Command>, db: seq<Sdk>, r: Text)
    requires forall k :: k in order ==> !Guard(k, r)
    ensures Dispatch(order, db, r) == Refused(-1)
  {
    if order != [] { DispatchUnguarded(order[1..], db, r); }
  }

  lemma {:induction false} AnsweredByGuard(db: seq<Sdk>, r: Text)
    ensures Answered(db, r) ==
            if Guard(SupportSdks, r) then Perform(db, SupportSdks, r)
            else if Guard(LvrVersion, r) then Perform(db, LvrVersion, r)
            else if Guard(SvrVersion, r) then Perform(db, SvrVersion, r)
            else if Guard(LvrFeature, r) then Perform(db, LvrFeature, r)
            else if Guard(SvrFeature, r) then Perform(db, SvrFeature, r)
            else Refused(-1)
  {
    if k: Command :| Guard(k, r) {
      AnsweredIs(db, k, r);
      forall j: Command | Guard(j, r) ensures j == k {
        GuardsExclusive(j, k, r);
      }
    } else {
      DispatchUnguarded(ORDER, db, r);
    }
  }

  lemma {:induction false} GuardWords(r: Text)
    ensures Guard(SupportSdks, r) <==> StrNCaseEq(r, "support_sdks", 6)
    ensures Guard(LvrVersion, r) <==> StrNCaseEq(r, "lvr_sdk_version", 15)
    ensures Guard(SvrVersion, r) <==> StrNCaseEq(r, "svr_sdk_version", 15)
    ensures Guard(LvrFeature, r) <==> StrNCaseEq(r, "lvr_feature:", 12)
    ensures Guard(SvrFeature, r) <==> StrNCaseEq(r, "svr_feature:", 12)
  {
  }

  /** The table of commands is the chain of branches, spelled out. */
  lemma {:induction false} AnsweredCases(db: seq<Sdk>, r: Text)
    ensures Answered(db, r) ==
            if StrNCaseEq(r, "support_sdks", 6) then TypesAnswer(db)
            else if StrNCaseEq(r, "lvr_sdk_version", 15) then VersionAnswer(db, "lvr")
            else if StrNCaseEq(r, "svr_sdk_version", 15) then VersionAnswer(db, "svr")
            else if StrNCaseEq(r, "lvr_feature:", 12) then FeatureAnswer(db, "lvr", From(r, 12))
            else if StrNCaseEq(r, "svr_feature:", 12) then FeatureAnswer(db, "svr", From(r, 12))
            else Refused(-1)
  {
    AnsweredByGuard(db, r);
    GuardWords(r);
  }

  /** The branches may be tried in any order. */
  lemma {:induction false} DispatchOrderFree(a: seq<Command>, b: seq<Command>, db: seq<Sdk>, r: Text)
    requires forall k :: k in a <==> k in b
    ensures Dispatch(a, db, r) == Dispatch(b, db, r)
  {
    if k :| k in a && Guard(k, r) {
      DispatchIsGuarded(a, db, k, r);
      DispatchIsGuarded(b, db, k, r);
    } else {
      DispatchUnguarded(a, db, r);
      DispatchUnguarded(b, db, r);
    }
  }

  /** Requests that differ only in the letter case of the command get the same response. */
  lemma {:induction false} CaseOfCommandIrrelevant(db: seq<Sdk>, k: Command, r: Text, s: Text)
    requires Guard(k, r) && |s| == |r| && s[Width(k)..] == r[Width(k)..]
    requires SameText(s[..Width(k)], r[..Width(k)])
    ensures Response(db, s) == Response(db, r)
  {
    LowerAllIff(Take(s, Width(k)), Take(r, Width(k)));
    AnsweredIs(db, k, r);
    AnsweredIs(db, k, s);
  }

  /** Every response leaves room for the terminator in the 65-byte buffer. */
  lemma {:induction false} ResponseFits(db: seq<Sdk>, r: Text)
    ensures 1 <= |Response(db, r)| <= BUFF_SIZE
  {
    DispatchAnswer(ORDER, db, r);
  }

  lemma {:induction false} FeatureTextFits(f: UInt64)
    ensures |Decimal(f)| <= 20
  {
    assert Pow10(10) == 10000000000;
    assert Pow10(20) == 10000000000 * Pow10(10);
    DecimalLength(f, 20);
  }

  lemma {:induction false} DispatchAnswer(order: seq<Command>, db: seq<Sdk>, r: Text)
    ensures match Dispatch(order, db, r)
            case Refused(code) => code in {-1, -2, -3}
            case Reply(text) => 1 <= |text| <= BUFF_SIZE
  {
    if order != [] {
      if Guard(order[0], r) {
        if order[0] in {LvrFeature, SvrFeature} {
          var found := Find(db, Family(order[0]));
          if found.Some? {
            FeatureTextFits(FeatureOf(found.value, GuardedArgument(order[0], r)));
          }
        }
      } else {
        DispatchAnswer(order[1..], db, r);
      }
    }
  }

  /** A feature request is answered with a minus sign exactly when the SDK is absent, else with a number. */
  lemma {:induction false} FeatureNegativeIffAbsent(db: seq<Sdk>, k: Command, r: Text)
    requires k in {LvrFeature, SvrFeature} && Guard(k, r)
    ensures Response(db, r) != "" && (Response(db, r)[0] == '-' <==> Find(db, Family(k)).None?)
    ensures Find(db, Family(k)).Some? ==> AllDigits(Response(db, r))
  {
    ResponseFits(db, r);
    AnsweredIs(db, k, r);
    var found := Find(db, Family(k));
    if found.Some? {
      assert IsDigit(Response(db, r)[0]);
    }
  }

  lemma {:induction false} TypeNames(db: seq<Sdk>)
    ensures Join(Types(db)) == "" <==> db == []
    ensures NUL !in Join(Types(db))
  {
    var names: seq<string> := Types(db);
    forall i | 0 <= i < |names| ensures names[i] != "" && NUL !in names[i] {
      var name: XmlName := db[i].typ;
    }
    JoinOfNames(names);
    assert names == [] <==> db == [];
  }

  /** With an SDK loaded "support_sdks" is never refused, and it lists the types exactly when they fit. */
  lemma {:induction false} TypeListRoundTrip(db: seq<Sdk>, r: Text)
    requires Guard(SupportSdks, r)
    ensures Answered(db, r).Refused? <==> db == []
    ensures db != [] ==> (Split(Response(db, r)) == Types(db) <==> |Join(Types(db))| <= BUFF_SIZE)
  {
    AnsweredIs(db, SupportSdks, r);
    TypeNames(db);
    if db != [] {
      var whole := Join(Types(db));
      TypesUnbroken(Types(db));
      SplitJoin(Types(db));
      if |whole| > BUFF_SIZE {
        var cut := whole[..BUFF_SIZE];
        assert Response(db, r) == cut;
        JoinSplit(cut);
        assert Split(cut) == Types(db) ==> Join(Split(cut)) == whole;
      } else {
        assert Response(db, r) == whole;
      }
    }
  }

  /** The type of the family's earliest document first registers v, over all documents about it, with the text of n. */
  predicate FirstRegistered(docs: seq<Document>, fam: Text, v: Text, n: nat) {
    var p := FirstOfFamily(docs, fam);
    && p < |docs|
    && var first := FirstRegistration(Children(Mentions(docs, docs[p].name)), v);
       first.Some? && first.value.content == Some(Decimal(n))
  }

  /**
   From the documents to the socket and back: the number first registered for a dot-free version of the earliest
   SDK of the family is the number a client reads, with or without a dotted suffix in its request, exactly up to
   2^63 - 1; a larger one is read as that.
   */
  lemma {:induction false} FeatureRoundTrip(docs: seq<Document>, k: Command, v: Text, tail: Text, n: nat, r: Text)
    requires k in {LvrFeature, SvrFeature} && Guard(k, r) && GuardedArgument(k, r) == v + tail
    requires '.' !in v && (tail == "" || tail[0] == '.')
    requires FirstRegistered(docs, Family(k), v, n)
    ensures var text := Response(ParseAll(docs), r);
            && AllDigits(text)
            && DigitsValue(text) == (if n <= LLONG_MAX then n else LLONG_MAX)
            && (DigitsValue(text) == n <==> n <= LLONG_MAX)
  {
    var db := ParseAll(docs);
    FeatureStored(docs, Family(k), v, n);
    FeatureReply(db, k, r);
    UpToDotOf(v, tail);
    DecimalDenotes(FeatureOf(Find(db, Family(k)).value, GuardedArgument(k, r)));
  }

  lemma {:induction false} FeatureReply(db: seq<Sdk>, k: Command, r: Text)
    requires k in {LvrFeature, SvrFeature} && Guard(k, r) && Find(db, Family(k)).Some?
    ensures Response(db, r) == Decimal(FeatureOf(Find(db, Family(k)).value, GuardedArgument(k, r)))
  {
    AnsweredIs(db, k, r);
    FeatureTextFits(FeatureOf(Find(db, Family(k)).value, GuardedArgument(k, r)));
  }

  /** Some request of at most 64 characters gets whatever value is registered for version v. */
  ghost predicate Askable(sdk: Sdk, k: Command, v: Text) {
    exists r: Text ::
      && |r| <= BUFF_SIZE && Guard(k, r)
      && forall n: UInt64 :: FeatureOf(Registering(sdk, v, n), GuardedArgument(k, r)) == n
  }

  /** A client can ask for a registered version exactly when it holds no dot and fits behind the command. */
  lemma {:induction false} AskableIff(sdk: Sdk, k: Command, v: Text)
    requires k in {LvrFeature, SvrFeature}
    ensures Askable(sdk, k, v) <==> '.' !in v && |v| <= 52
  {
    if '.' !in v && |v| <= 52 {
      var r := Spelled(k, v);
      FeatureReachableIff(sdk, v);
      assert forall n: UInt64 :: FeatureOf(Registering(sdk, v, n), GuardedArgument(k, r)) == n;
    }
    if Askable(sdk, k, v) {
      AskedByKey(sdk, k, v);
    }
  }

  lemma {:induction false} KeyIsVersion(sdk: Sdk, v: Text, argument: Text)
    requires forall n: UInt64 :: FeatureOf(Registering(sdk, v, n), argument) == n
    ensures UpToDot(argument) == v
  {
    assert FeatureOf(Registering(sdk, v, 0), argument) == 0;
    assert FeatureOf(Registering(sdk, v, 1), argument) == 1;
  }

  lemma {:induction false} AskedByKey(sdk: Sdk, k: Command, v: Text)
    requires k in {LvrFeature, SvrFeature} && Askable(sdk, k, v)
    ensures '.' !in v && |v| <= 52
  {
    var r: Text :| && |r| <= BUFF_SIZE && Guard(k, r)
                   && forall n: UInt64 :: FeatureOf(Registering(sdk, v, n), GuardedArgument(k, r)) == n;
    KeyIsVersion(sdk, v, GuardedArgument(k, r));
  }

  /** The command followed by its argument. */
  lemma {:induction false} Spelled(k: Command, v: Text) returns (r: Text)
    requires k in {LvrFeature, SvrFeature}
    ensures Guard(k, r) && GuardedArgument(k, r) == v && |r| == 12 + |v|
  {
    r := Word(k) + v;
    assert |Word(k)| == Width(k);
    assert Take(r, Width(k)) == Take(Word(k), Width(k));
  }

  lemma {:induction false} FeatureStored(docs: seq<Document>, fam: Text, v: Text, n: nat)
    requires FirstRegistered(docs, fam, v, n)
    ensures var found := Find(ParseAll(docs), fam);
            found.Some? && Lookup(found.value.features, v) == Some(if n <= LLONG_MAX then n else LLONG_MAX)
  {
    var db := ParseAll(docs);
    FindIsEarliest(docs, fam);
    FindIsEntry(db, fam);
    BuildIsFirstWins(docs);
    assert EntryIsFirst(docs, Find(db, fam).value);
    AtollOfDecimal(n);
  }

  lemma {:induction false} VersionIsEarliest(docs: seq<Document>, fam: Text)
    ensures var p := FirstOfFamily(docs, fam);
            var found := Find(ParseAll(docs), fam);
            if p == |docs| then found.None? else found.Some? && docs[p].version == Some(found.value.version)
  {
    var db := ParseAll(docs);
    var p := FirstOfFamily(docs, fam);
    FindIsEarliest(docs, fam);
    if p < |docs| {
      FindIsEntry(db, fam);
      BuildIsFirstWins(docs);
      var sdk := Find(db, fam).value;
      assert EntryIsFirst(docs, sdk);
      EarliestIsFirstMention(docs, p, fam);
    }
  }

  /** A version request returns the version of the earliest document of the family, cut to the buffer. */
  lemma {:induction false} VersionRoundTrip(docs: seq<Document>, k: Command, r: Text)
    requires k in {LvrVersion, SvrVersion} && Guard(k, r)
    ensures var p := FirstOfFamily(docs, Family(k));
            Response(ParseAll(docs), r) ==
            if p == |docs| then "-3"
            else if docs[p].version.value == "" then "-2"
            else Take(docs[p].version.value, BUFF_SIZE)
  {
    AnsweredIs(ParseAll(docs), k, r);
    VersionIsEarliest(docs, Family(k));
    CodesRendered();
  }

  /** How a client would take a version response: an SDK with this version, or none. */
  function ReadVersion(text: Text): Option<Text> {
    if text == "-3" then None else if text == "-2" then Some("") else Some(text)
  }

  /** It is right unless the version is longer than the buffer or looks like a refusal. */
  lemma {:induction false} VersionToldIff(docs: seq<Document>, k: Command, r: Text)
    requires k in {LvrVersion, SvrVersion} && Guard(k, r)
    ensures var p := FirstOfFamily(docs, Family(k));
            var told := ReadVersion(Response(ParseAll(docs), r));
            if p == |docs| then told == None
            else
              told == docs[p].version <==>
              |docs[p].version.value| <= BUFF_SIZE && docs[p].version.value != "-2" && docs[p].version.value != "-3"
  {
    VersionRoundTrip(docs, k, r);
    var p := FirstOfFamily(docs, Family(k));
    if p < |docs| {
      ReadVersionOfCut(docs[p].version.value);
    }
  }

  lemma {:induction false} ReadVersionOfCut(v: Text)
    ensures ReadVersion(Take(v, BUFF_SIZE)) == Some(v) <==> |v| <= BUFF_SIZE && v != "-2" && v != "-3"
  {
    var cut := Take(v, BUFF_SIZE);
    if |v| > BUFF_SIZE {
      assert |cut| == BUFF_SIZE;
      assert cut != v && cut != "-2" && cut != "-3";
    } else {
      assert cut == v;
    }
  }

  lemma {:induction false} CodesRendered()
    ensures Render(Refused(-1)) == "-1" && Render(Refused(-2)) == "-2" && Render(Refused(-3)) == "-3"
  {
    assert Decimal(1) == "1" && Decimal(2) == "2" && Decimal(3) == "3";
  }

  lemma {:induction false} EarliestIsFirstMention(docs: seq<Document>, p: nat, fam: Text)
    requires p == FirstOfFamily(docs, fam) < |docs|
    ensures Mentions(docs, docs[p].name) != [] && Mentions(docs, docs[p].name)[0] == docs[p]
  {
    var front, d := docs[..|docs| - 1], docs[|docs| - 1];
    if p < |front| {
      EarliestIsFirstMention(front, p, fam);
    } else {
      FirstMentionExists(front, d.name);
      assert forall i :: 0 <= i < |front| ==> docs[i] == front[i];
    }
  }
}
