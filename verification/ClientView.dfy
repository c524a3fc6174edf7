/**
 What a client experiences, said in the characters it sends and receives and in the documents the server was given:
 the commands are spelled out, and nothing refers to how requests are recognized or the database is built.
 */
module ClientView {
  import opened CStrings
  import opened SdkDatabase
  import opened ClientProtocol
  import opened Kernel
  import opened ClientConnector
  import opened ServerRounds
  import opened ServerRuns

  // Answers

  /** Document p is the earliest one named fam, whatever the case of its letters; |docs| if there is none. */
  ghost predicate Earliest(docs: seq<Document>, fam: string, p: nat) {
    && p <= |docs|
    && (forall q :: 0 <= q < p ==> !Named(docs[q], fam))
    && (p < |docs| ==> Named(docs[p], fam))
  }

  /** The list of types, cut to 64 characters. */
  predicate TypesText(docs: seq<Document>, text: string) {
    var whole := Join(NamesOf(docs));
    text == if whole == "" then "-2" else if |whole| <= 64 then whole else whole[..64]
  }

  ghost predicate VersionText(docs: seq<Document>, fam: string, text: string) {
    exists p :: Earliest(docs, fam, p) && text == VersionOf(docs, p)
  }

  function VersionOf(docs: seq<Document>, p: nat): string {
    if p < |docs| && docs[p].Rooted? && docs[p].version.Some? then
      var v := docs[p].version.value;
      if v == "" then "-2" else if |v| <= 64 then v else v[..64]
    else "-3"
  }

  /** The number registered first for exactly this version by the documents of exactly this name; 0 if none is. */
  ghost predicate NumberOf(docs: seq<Document>, name: string, key: string, n: nat) {
    || (n == 0 && forall i, j :: !RegistersAt(docs, name, key, i, j))
    || (exists i, j :: FirstAt(docs, name, key, i, j) && n == ContentValue(docs[i].children[j]))
  }

  /** The content as a long long, converted to 64 bits without sign. */
  function ContentValue(it: Item): nat
    requires it.content.Some?
  {
    var i := Atoll(it.content.value);
    if i < 0 then i + 0x1_0000_0000_0000_0000 else i
  }

  /** Digits, without a leading zero, that denote n. */
  predicate Spells(text: string, n: nat) {
    && text != "" && (forall i :: 0 <= i < |text| ==> '0' <= text[i] <= '9')
    && (|text| > 1 ==> text[0] != '0')
    && DigitsValue(text) == n
  }

  /** What stands before the first dot. */
  predicate BeforeDot(argument: string, key: string) {
    && |key| <= |argument| && key == argument[..|key|] && '.' !in key
    && (|key| < |argument| ==> argument[|key|] == '.')
  }

  ghost predicate FeatureText(docs: seq<Document>, fam: string, argument: string, text: string) {
    exists p, key, n :: Earliest(docs, fam, p) && FeatureOfPlace(docs, p, argument, key, n, text)
  }

  ghost predicate FeatureOfPlace(docs: seq<Document>, p: nat, argument: string, key: string, n: nat, text: string) {
    if p < |docs| && docs[p].Rooted? then
      BeforeDot(argument, key) && NumberOf(docs, docs[p].name, key, n) && Spells(text, n)
    else text == "-3"
  }

  /** The text that answers request r. */
  ghost predicate Answers(docs: seq<Document>, r: string, text: string) {
    && (Begins(r, "suppor") ==> TypesText(docs, text))
    && (Begins(r, "lvr_sdk_version") ==> VersionText(docs, "lvr", text))
    && (Begins(r, "svr_sdk_version") ==> VersionText(docs, "svr", text))
    && (Begins(r, "lvr_feature:") ==> FeatureText(docs, "lvr", r[12..], text))
    && (Begins(r, "svr_feature:") ==> FeatureText(docs, "svr", r[12..], text))
    && (IsCommand(r) || text == "-1")
  }

  predicate IsCommand(r: string) {
    || Begins(r, "suppor")
    || Begins(r, "lvr_sdk_version") || Begins(r, "svr_sdk_version")
    || Begins(r, "lvr_feature:") || Begins(r, "svr_feature:")
  }

  lemma {:induction false} BeginsIff(r: Text, word: Text, n: nat)
    requires n <= |word|
    ensures StrNCaseEq(r, word, n) <==> |r| >= n && SameText(r[..n], word[..n])
    ensures StrNCaseEq(r, word, n) <==> Begins(r, word[..n])
  {
    StrNCaseEqIff(r, word, n);
  }

  lemma {:induction false} GuardMeans(r: Text)
    ensures Guard(SupportSdks, r) <==> Begins(r, "suppor")
    ensures Guard(LvrVersion, r) <==> Begins(r, "lvr_sdk_version")
    ensures Guard(SvrVersion, r) <==> Begins(r, "svr_sdk_version")
    ensures Guard(LvrFeature, r) <==> Begins(r, "lvr_feature:")
    ensures Guard(SvrFeature, r) <==> Begins(r, "svr_feature:")
  {
    WordMeans(SupportSdks, r, "suppor");
    WordMeans(LvrVersion, r, "lvr_sdk_version");
    WordMeans(SvrVersion, r, "svr_sdk_version");
    WordMeans(LvrFeature, r, "lvr_feature:");
    WordMeans(SvrFeature, r, "svr_feature:");
  }

  lemma {:induction false} WordMeans(k: Command, r: Text, word: string)
    requires Width(k) <= |Word(k)| && Word(k)[..Width(k)] == word
    ensures Guard(k, r) <==> Begins(r, word)
  {
    BeginsIff(r, Word(k), Width(k));
  }

  lemma {:induction false} TypesMeans(docs: seq<Document>, r: Text)
    requires Guard(SupportSdks, r)
    ensures TypesText(docs, Response(ParseAll(docs), r))
  {
    AnsweredIs(ParseAll(docs), SupportSdks, r);
    TypesAreNames(docs);
    CodesRendered();
  }

  lemma {:induction false} VersionMeans(docs: seq<Document>, k: Command, fam: Text, r: Text)
    requires k in {LvrVersion, SvrVersion} && Guard(k, r) && Family(k) == fam
    ensures VersionText(docs, fam, Response(ParseAll(docs), r))
  {
    var p := FirstOfFamily(docs, fam);
    VersionRoundTrip(docs, k, r);
    assert Earliest(docs, fam, p);
  }

  lemma {:induction false} DecimalSpells(n: nat)
    ensures Spells(Decimal(n), n)
    ensures n > 0 ==> Decimal(n)[0] != '0'
  {
    DecimalDenotes(n);
    if n >= 10 {
      DecimalSpells(n / 10);
    }
  }

  lemma {:induction false} NumberMeans(docs: seq<Document>, fam: Text, key: Text, p: nat)
    requires p == FirstOfFamily(docs, fam) < |docs|
    ensures var found := Find(ParseAll(docs), fam);
            && found.Some?
            && var features := found.value.features;
               NumberOf(docs, docs[p].name, key, if key in features then features[key] else 0)
  {
    var db, name := ParseAll(docs), docs[p].name;
    FindIsEarliest(docs, fam);
    FindIsEntry(db, fam);
    BuildIsFirstWins(docs);
    var sdk := Find(db, fam).value;
    assert EntryIsFirst(docs, sdk);
    var first := FirstRegistration(Children(Mentions(docs, name)), key);
    FirstRegistrationAt(docs, name, key);
    assert Lookup(sdk.features, key) == FirstValue(Children(Mentions(docs, name)), key);
    if first.Some? {
      var i, j :| FirstAt(docs, name, key, i, j) && docs[i].children[j] == first.value;
      assert sdk.features[key] == ContentValue(docs[i].children[j]);
    }
  }

  lemma {:induction false} FeatureMeans(docs: seq<Document>, k: Command, fam: Text, r: Text)
    requires k in {LvrFeature, SvrFeature} && Guard(k, r) && Family(k) == fam
    ensures FeatureText(docs, fam, GuardedArgument(k, r), Response(ParseAll(docs), r))
  {
    var db, p, argument := ParseAll(docs), FirstOfFamily(docs, fam), GuardedArgument(k, r);
    var text, key := Response(db, r), UpToDot(argument);
    assert Earliest(docs, fam, p);
    FindIsEarliest(docs, fam);
    AnsweredIs(db, k, r);
    if p < |docs| {
      NumberMeans(docs, fam, key, p);
      var n := FeatureOf(Find(db, fam).value, argument);
      FeatureReply(db, k, r);
      DecimalSpells(n);
      assert FeatureOfPlace(docs, p, argument, key, n, text);
    } else {
      CodesRendered();
      assert FeatureOfPlace(docs, p, argument, key, 0, text);
    }
  }

  /** For all documents and all requests: the response to a request is what its characters ask of the documents. */
  lemma {:induction false} ResponseMeans(docs: seq<Document>, r: Text)
    ensures Answers(docs, r, Response(ParseAll(docs), r))
  {
    GuardMeans(r);
    if Guard(SupportSdks, r) { TypesMeans(docs, r); }
    if Guard(LvrVersion, r) { VersionMeans(docs, LvrVersion, "lvr", r); }
    if Guard(SvrVersion, r) { VersionMeans(docs, SvrVersion, "svr", r); }
    if Guard(LvrFeature, r) { FeatureMeans(docs, LvrFeature, "lvr", r); }
    if Guard(SvrFeature, r) { FeatureMeans(docs, SvrFeature, "svr", r); }
    AnsweredCases(ParseAll(docs), r);
    CodesRendered();
  }

  // Stories

  /** The request in some data: all of it, or what comes before a NUL. */
  predicate RequestIn(d: string, r: string) {
    && |r| <= |d| && r == d[..|r|] && (forall i :: 0 <= i < |r| ==> r[i] != '\0')
    && (|r| < |d| ==> d[|r|] == '\0')
  }

  /** Place i of a story fits what is around it. */
  ghost predicate Fits(docs: seq<Document>, p: seq<Action>, i: nat)
    requires i < |p|
  {
    match p[i]
    case Opened(_) => false
    case Received(r) =>
      if Ending(r) then i + 2 == |p| && p[i + 1] == Closed
      else if r.Data? then i + 1 < |p| && p[i + 1].Sent? && Replied(docs, r.bytes, p[i + 1].text)
      else i + 1 == |p| || p[i + 1].Received?
    case Sent(_) => i > 0 && p[i - 1].Received? && p[i - 1].r.Data? && (i + 1 == |p| || p[i + 1].Received?)
    case Closed => i > 0 && p[i - 1].Received? && Ending(p[i - 1].r) && i + 1 == |p|
  }

  ghost predicate Replied(docs: seq<Document>, d: string, text: string) {
    exists r :: RequestIn(d, r) && Answers(docs, r, text)
  }

  /**
   A connection's whole story: it is opened; each read that brings data is answered at once, unless it ends the
   connection; a failed read has no consequence; and it is closed right after the read that ends it.
   */
  ghost predicate Story(docs: seq<Document>, p: seq<Action>) {
    && p != [] && p[0].Opened?
    && forall i :: 0 < i < |p| ==> Fits(docs, p, i)
  }

  predicate Ended(p: seq<Action>) {
    exists i :: 0 <= i < |p| && p[i].Received? && Ending(p[i].r)
  }

  lemma {:induction false} DataAnswered(docs: seq<Document>, d: Packet)
    ensures Replied(docs, d, Response(ParseAll(docs), CString(d)))
  {
    var r := CString(d);
    ResponseMeans(docs, r);
    assert forall i :: 0 <= i < |r| ==> r[i] in r;
    assert RequestIn(d, r);
  }

  /** What follows in time does not change how an earlier place fits. */
  lemma {:induction false} FitsLater(docs: seq<Document>, a: seq<Action>, q: seq<Action>, i: nat)
    requires i < |q| && Fits(docs, q, i)
    ensures i + |a| < |a + q| && Fits(docs, a + q, i + |a|)
  {
    var p := a + q;
    assert p[i + |a|] == q[i];
    assert i > 0 ==> p[i + |a| - 1] == q[i - 1];
    assert i + 1 < |q| ==> p[i + |a| + 1] == q[i + 1];
  }

  lemma {:induction false} TurnFits(docs: seq<Document>, r: ReadResult, q: seq<Action>)
    requires !Quits(r) && (q == [] || q[0].Received?)
    ensures var p := Turn(ParseAll(docs), r) + q;
            && p != [] && p[0] == Received(r)
            && forall i :: 0 <= i < |Turn(ParseAll(docs), r)| ==> Fits(docs, p, i)
  {
    QuitsIff(r);
    if r.Data? {
      DataAnswered(docs, r.bytes);
    }
  }

  lemma {:induction false} SessionFits(docs: seq<Document>, incoming: seq<ReadResult>)
    ensures var q := Session(ParseAll(docs), incoming);
            && (q == [] || q[0].Received?)
            && (forall i :: 0 <= i < |q| ==> Fits(docs, q, i))
  {
    if incoming != [] {
      var r, db := incoming[0], ParseAll(docs);
      QuitsIff(r);
      if !Quits(r) {
        var rest, turn := Session(db, incoming[1..]), Turn(db, r);
        SessionFits(docs, incoming[1..]);
        TurnFits(docs, r, rest);
        forall i | 0 <= i < |turn + rest| ensures Fits(docs, turn + rest, i) {
          if i >= |turn| {
            FitsLater(docs, turn, rest, i - |turn|);
          }
        }
      }
    }
  }

  lemma {:induction false} StoryOfSession(docs: seq<Document>, p: seq<Action>, incoming: seq<ReadResult>)
    requires p != [] && p[0].Opened? && p[1..] == Session(ParseAll(docs), incoming)
    ensures Story(docs, p)
  {
    SessionFits(docs, incoming);
    assert p == [p[0]] + p[1..];
    forall i | 0 < i < |p| ensures Fits(docs, p, i) {
      FitsLater(docs, [p[0]], p[1..], i - 1);
    }
  }

  lemma {:induction false} EndedIff(p: seq<Action>)
    ensures Ended(p) <==> !Stays(ReadsIn(p))
  {
    if p != [] {
      var front, a := p[..|p| - 1], p[|p| - 1];
      EndedIff(front);
      assert Ended(p) <==> Ended(front) || (a.Received? && Ending(a.r)) by {
        if Ended(front) {
          var i :| 0 <= i < |front| && front[i].Received? && Ending(front[i].r);
          assert p[i] == front[i];
        }
      }
      if a.Received? {
        QuitsIff(a.r);
        StaysNext(ReadsIn(front), a.r);
      } else {
        assert ReadsIn(front) + [] == ReadsIn(front);
      }
    }
  }

  lemma {:induction false} StaysNext(rs: seq<ReadResult>, r: ReadResult)
    ensures Stays(rs + [r]) <==> Stays(rs) && !Quits(r)
  {
    if Stays(rs + [r]) {
      assert forall i :: 0 <= i < |rs| ==> (rs + [r])[i] == rs[i];
      assert (rs + [r])[|rs|] == r;
    }
  }

  lemma {:induction false} ClosedIff(docs: seq<Document>, p: seq<Action>)
    requires Story(docs, p)
    ensures Closed in p <==> Ended(p)
  {
    if Closed in p {
      var i :| 0 <= i < |p| && p[i] == Closed;
      assert Fits(docs, p, i);
      assert p[i - 1].Received? && Ending(p[i - 1].r);
    }
    if Ended(p) {
      var i :| 0 <= i < |p| && p[i].Received? && Ending(p[i].r);
      assert Fits(docs, p, i);
      assert p[i + 1] == Closed;
    }
  }

  /**
   For every run and every connection: its transcript is a story told by the documents, and it has been closed, and
   its descriptor is no longer open, exactly when a read brought end of stream or data beginning with "quit".
   */
  lemma {:induction false} EveryStory(env: Setup, docs: seq<Document>, script: seq<RoundInput>, id: nat)
    requires env.Ok() && env.db == ParseAll(docs) && id < RunAll(env, START, script).world.next
    ensures var w := RunAll(env, START, script).world;
            var p := Project(w.trace, id);
            && Story(docs, p)
            && (Closed in p <==> Ended(p))
            && (IsOpen(w.files, id) <==> !Ended(p))
  {
    EveryRun(env, script, id);
    var p := Project(RunAll(env, START, script).world.trace, id);
    StoryOfSession(docs, p, ReadsIn(p));
    ClosedIff(docs, p);
    EndedIff(p);
  }
}
