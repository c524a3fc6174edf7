/**
 What the XML documents say, as values: the database that a sequence of parses builds,
 and the proof that every entry comes from its first occurrence.
 */
module SdkDatabase {
  import opened CStrings

  const EXTERNAL_SDK: Text := "ExternalSDK"

  /** An element name, section 2.3 of XML 1.0: non-empty, and '^' is not a name character. */
  type XmlName = s: string | s != "" && '^' !in s && NUL !in s witness "SVR"

  datatype Item = Item(name: Text, version: Option<Text>, content: Option<Text>)

  /** The argument of the parser: a null path, a file libxml2 gives no tree or no root for, or a tree. */
  datatype Document =
    | NullPath
    | Unreadable
    | NoRoot
    | Rooted(name: XmlName, version: Option<Text>, children: seq<Item>)

  datatype Sdk = Sdk(typ: XmlName, version: Text, features: map<Text, UInt64>)

  // Building

  function Versioned(d: Document): bool {
    d.Rooted? && d.version.Some?
  }

  predicate Registers(it: Item) {
    it.name == EXTERNAL_SDK && it.version.Some? && it.content.Some?
  }

  function ItemValue(it: Item): UInt64
    requires Registers(it)
  {
    ToUInt64(Atoll(it.content.value))
  }

  function AddFeature(m: map<Text, UInt64>, v: Text, f: UInt64): map<Text, UInt64> {
    if v in m then m else m[v := f]
  }

  function AddItem(m: map<Text, UInt64>, it: Item): map<Text, UInt64> {
    if Registers(it) then AddFeature(m, it.version.value, ItemValue(it)) else m
  }

  function AddItems(m: map<Text, UInt64>, items: seq<Item>): map<Text, UInt64> {
    if items == [] then m
    else AddItem(AddItems(m, items[..|items| - 1]), items[|items| - 1])
  }

  /** The position of the entry stored under exactly this name, |db| if there is none. */
  function Index(db: seq<Sdk>, t: XmlName): (i: nat)
    ensures i <= |db|
    ensures forall k :: 0 <= k < i ==> db[k].typ != t
    ensures i < |db| ==> db[i].typ == t
  {
    if db == [] || db[0].typ == t then 0 else 1 + Index(db[1..], t)
  }

  function Generate(db: seq<Sdk>, t: XmlName, version: Text): (r: seq<Sdk>)
    ensures Index(r, t) < |r|
  {
    if Index(db, t) < |db| then db
    else
      var r := db + [Sdk(t, version, map[])];
      assert r[|db|].typ == t;
      r
  }

  function Parse(db: seq<Sdk>, d: Document): seq<Sdk> {
    if Versioned(d) then
      var grown := Generate(db, d.name, d.version.value);
      var i := Index(grown, d.name);
      grown[i := grown[i].(features := AddItems(grown[i].features, d.children))]
    else db
  }

  /** An existing entry after document d: the document's own type gains its items. */
  function Updated(sdk: Sdk, d: Document): Sdk {
    if Versioned(d) && d.name == sdk.typ then sdk.(features := AddItems(sdk.features, d.children)) else sdk
  }

  function ParseAll(docs: seq<Document>): seq<Sdk> {
    if docs == [] then []
    else Parse(ParseAll(docs[..|docs| - 1]), docs[|docs| - 1])
  }

  // Reading

  /** The earliest entry whose type matches ignoring case. */
  function Find(db: seq<Sdk>, t: Text): Option<Sdk> {
    if db == [] then None
    else if StrCaseEq(t, db[0].typ) then Some(db[0])
    else Find(db[1..], t)
  }

  function UpToDot(v: Text): (r: Text)
    ensures '.' !in r && |r| <= |v| && r == v[..|r|]
    ensures |r| < |v| ==> v[|r|] == '.'
  {
    if v == "" || v[0] == '.' then ""
    else
      var rest: Text := UpToDot(v[1..]);
      [v[0]] + rest
  }

  lemma {:induction false} UpToDotOf(v: Text, tail: Text)
    requires '.' !in v && (tail == "" || tail[0] == '.')
    ensures UpToDot(v + tail) == v
  {
    if v == "" {
      assert v + tail == tail;
    } else {
      UpToDotOf(v[1..], tail);
      assert (v + tail)[1..] == v[1..] + tail;
    }
  }

  function FeatureOf(sdk: Sdk, v: Text): UInt64 {
    var key := UpToDot(v);
    if key in sdk.features then sdk.features[key] else 0
  }

  function Registering(sdk: Sdk, v: Text, n: UInt64): Sdk {
    sdk.(features := sdk.features[v := n])
  }

  /** A registered version can be asked for, whatever its value, exactly when it holds no dot. */
  lemma {:induction false} FeatureReachableIff(sdk: Sdk, v: Text)
    ensures (forall n: UInt64 :: FeatureOf(Registering(sdk, v, n), v) == n) <==> '.' !in v
  {
    if '.' !in v {
      UpToDotOf(v, "");
      assert v + "" == v;
    } else {
      var key := UpToDot(v);
      assert key != v;
      var n: UInt64 := if FeatureOf(sdk, v) == 0 then 1 else 0;
      assert FeatureOf(Registering(sdk, v, n), v) == FeatureOf(sdk, v);
    }
  }

  function Types(db: seq<Sdk>): (r: seq<XmlName>)
    ensures |r| == |db| && forall i :: 0 <= i < |db| ==> r[i] == db[i].typ
  {
    seq(|db|, i requires 0 <= i < |db| => db[i].typ)
  }

  /** The names joined by '^'. */
  function Join(names: seq<string>): string {
    if names == [] then ""
    else if |names| == 1 then names[0]
    else Join(names[..|names| - 1]) + "^" + names[|names| - 1]
  }

  lemma {:induction false} JoinOfNames(names: seq<string>)
    requires forall i :: 0 <= i < |names| ==> names[i] != "" && NUL !in names[i]
    ensures NUL !in Join(names)
    ensures Join(names) == "" <==> names == []
  {
    if |names| > 1 {
      JoinOfNames(names[..|names| - 1]);
    }
  }

  function Split(s: string): (r: seq<string>)
    ensures |r| >= 1
  {
    if s == "" then [""]
    else
      var front := Split(s[..|s| - 1]);
      if s[|s| - 1] == '^' then front + [""]
      else front[..|front| - 1] + [front[|front| - 1] + [s[|s| - 1]]]
  }

  /** One more character lengthens the last part, unless it is the separator. */
  lemma {:induction false} SplitNext(s: string, c: char)
    ensures var f := Split(s);
            Split(s + [c]) == if c == '^' then f + [""] else f[..|f| - 1] + [f[|f| - 1] + [c]]
  {
    assert (s + [c])[..|s|] == s;
  }

  lemma {:induction false} LengthenLast(s: string, front: seq<string>, last: string, c: char)
    requires Split(s) == front + [last] && c != '^'
    ensures Split(s + [c]) == front + [last + [c]]
  {
    SplitNext(s, c);
    LastPart(front, last);
  }

  lemma {:induction false} SplitOfAppend(s: string, word: string)
    requires '^' !in word
    ensures var f := Split(s); Split(s + word) == f[..|f| - 1] + [f[|f| - 1] + word]
    decreases |word|
  {
    var f := Split(s);
    if word == "" {
      assert s + word == s && f[|f| - 1] + word == f[|f| - 1];
    } else {
      var w, c := word[..|word| - 1], word[|word| - 1];
      assert word == w + [c] && s + word == (s + w) + [c];
      SplitOfAppend(s, w);
      assert c != '^' && '^' !in w;
      LengthenLast(s + w, f[..|f| - 1], f[|f| - 1] + w, c);
      assert f[|f| - 1] + word == f[|f| - 1] + w + [c];
    }
  }

  lemma {:induction false} LastPart(front: seq<string>, last: string)
    ensures var g := front + [last]; g[..|g| - 1] == front && g[|g| - 1] == last
  {
  }

  /** Cutting the joined list at '^' gives the names back, in order. */
  lemma {:induction false} SplitJoin(names: seq<string>)
    requires names != [] && Unbroken(names)
    ensures Split(Join(names)) == names
  {
    var front, last := names[..|names| - 1], names[|names| - 1];
    if front == [] {
      SplitOne(last);
      assert names == [last];
    } else {
      SplitJoin(front);
      SplitJoinNext(front, last);
      assert front + [last] == names;
    }
  }

  /** No name holds the separator. */
  predicate Unbroken(names: seq<string>) {
    names == [] || (Unbroken(names[..|names| - 1]) && '^' !in names[|names| - 1])
  }

  lemma {:induction false} TypesUnbroken(names: seq<XmlName>)
    ensures Unbroken(names)
  {
    if names != [] {
      TypesUnbroken(names[..|names| - 1]);
    }
  }

  lemma {:induction false} SplitOne(word: string)
    requires '^' !in word
    ensures Split(word) == [word]
  {
    SplitOfAppend("", word);
    assert "" + word == word;
  }

  lemma {:induction false} SplitJoinNext(front: seq<string>, last: string)
    requires front != [] && Split(Join(front)) == front && '^' !in last
    ensures Split(Join(front + [last])) == front + [last]
  {
    var s := Join(front);
    SplitNext(s, '^');
    assert s + ['^'] == s + "^";
    SplitWord(s + "^", front, last);
    JoinNext(front, last);
  }

  lemma {:induction false} SplitWord(s: string, front: seq<string>, word: string)
    requires Split(s) == front + [""] && '^' !in word
    ensures Split(s + word) == front + [word]
  {
    SplitOfAppend(s, word);
    LastPart(front, "");
    assert "" + word == word;
  }

  /** Joining with one more name. */
  lemma {:induction false} JoinNext(front: seq<string>, last: string)
    ensures Join(front + [last]) == if front == [] then last else Join(front) + "^" + last
  {
    LastPart(front, last);
  }

  lemma {:induction false} JoinSplit(s: string)
    ensures Join(Split(s)) == s
  {
    if s != "" {
      var front, c := s[..|s| - 1], s[|s| - 1];
      var f := Split(front);
      JoinSplit(front);
      assert front + [c] == s;
      if c == '^' {
        JoinNext(f, "");
        assert Join(f) + "^" + "" == s;
      } else {
        JoinLengthened(f[..|f| - 1], f[|f| - 1], c);
        assert f[..|f| - 1] + [f[|f| - 1]] == f;
      }
    }
  }

  lemma {:induction false} JoinLengthened(front: seq<string>, last: string, c: char)
    ensures Join(front + [last + [c]]) == Join(front + [last]) + [c]
  {
    JoinNext(front, last);
    JoinNext(front, last + [c]);
    if front != [] {
      assert Join(front) + "^" + (last + [c]) == (Join(front) + "^" + last) + [c];
    }
  }

  // First wins, stated on the documents alone

  /** The documents that contribute to type t, in order. */
  function Mentions(docs: seq<Document>, t: XmlName): (r: seq<Document>)
    ensures forall d :: d in r <==> d in docs && Versioned(d) && d.name == t
  {
    if docs == [] then []
    else
      var d := docs[|docs| - 1];
      var front := Mentions(docs[..|docs| - 1], t);
      assert docs == docs[..|docs| - 1] + [d];
      if Versioned(d) && d.name == t then front + [d] else front
  }

  function Children(docs: seq<Document>): seq<Item> {
    if docs == [] then []
    else
      var d := docs[|docs| - 1];
      Children(docs[..|docs| - 1]) + (if d.Rooted? then d.children else [])
  }

  /** The first item that registers version v. */
  function FirstRegistration(items: seq<Item>, v: Text): (r: Option<Item>)
    ensures r.Some? ==> Registers(r.value) && r.value.version.value == v
  {
    if items == [] then None
    else if Registers(items[0]) && items[0].version.value == v then Some(items[0])
    else FirstRegistration(items[1..], v)
  }

  function FirstValue(items: seq<Item>, v: Text): Option<UInt64> {
    match FirstRegistration(items, v)
    case None => None
    case Some(it) => Some(ItemValue(it))
  }

  function Lookup(m: map<Text, UInt64>, v: Text): Option<UInt64> {
    if v in m then Some(m[v]) else None
  }

  function OrElse<T>(a: Option<T>, b: Option<T>): Option<T> {
    if a.Some? then a else b
  }

  lemma {:induction false} FirstValueOfConcat(a: seq<Item>, b: seq<Item>, v: Text)
    ensures FirstValue(a + b, v) == OrElse(FirstValue(a, v), FirstValue(b, v))
  {
    if a == [] {
      assert a + b == b;
    } else {
      FirstValueOfConcat(a[1..], b, v);
      assert (a + b)[1..] == a[1..] + b;
    }
  }

  lemma {:induction false} AddItemsFirstWins(m: map<Text, UInt64>, items: seq<Item>, v: Text)
    ensures Lookup(AddItems(m, items), v) == OrElse(Lookup(m, v), FirstValue(items, v))
  {
    if items != [] {
      var front, last := items[..|items| - 1], items[|items| - 1];
      AddItemsFirstWins(m, front, v);
      FirstValueOfConcat(front, [last], v);
      assert front + [last] == items;
      assert [last][1..] == [];
      assert FirstRegistration([last], v) ==
             if Registers(last) && last.version.value == v then Some(last) else None;
    }
  }

  ghost predicate DistinctTypes(db: seq<Sdk>) {
    forall i, j :: 0 <= i < j < |db| ==> db[i].typ != db[j].typ
  }

  /** The entry for t: version of the first mention, each feature from its first registration. */
  ghost predicate EntryIsFirst(docs: seq<Document>, sdk: Sdk) {
    var about := Mentions(docs, sdk.typ);
    && about != []
    && about[0].Rooted?
    && about[0].version == Some(sdk.version)
    && forall v :: Lookup(sdk.features, v) == FirstValue(Children(about), v)
  }

  function FirstMention(docs: seq<Document>, t: XmlName): (i: nat)
    ensures i <= |docs|
    ensures forall k :: 0 <= k < i ==> !(Versioned(docs[k]) && docs[k].name == t)
    ensures i < |docs| ==> Versioned(docs[i]) && docs[i].name == t
  {
    if docs == [] || (Versioned(docs[0]) && docs[0].name == t) then 0
    else 1 + FirstMention(docs[1..], t)
  }

  /** db is what the documents say when the first occurrence of everything wins. */
  ghost predicate FirstWins(docs: seq<Document>, db: seq<Sdk>) {
    && DistinctTypes(db)
    && (forall t: XmlName :: Index(db, t) < |db| <==> Mentions(docs, t) != [])
    && (forall i :: 0 <= i < |db| ==> EntryIsFirst(docs, db[i]))
    && (forall i, j :: 0 <= i < j < |db| ==> FirstMention(docs, db[i].typ) < FirstMention(docs, db[j].typ))
  }

  lemma {:induction false} IndexOfEntry(db: seq<Sdk>, i: nat)
    requires DistinctTypes(db) && i < |db|
    ensures Index(db, db[i].typ) == i
  {
    assert Index(db, db[i].typ) <= i;
  }

  lemma {:induction false} FirstMentionExtends(docs: seq<Document>, d: Document, t: XmlName)
    ensures var all := docs + [d];
            if FirstMention(docs, t) < |docs| then FirstMention(all, t) == FirstMention(docs, t)
            else FirstMention(all, t) >= |docs|
  {
    var all := docs + [d];
    var i, k := FirstMention(docs, t), FirstMention(all, t);
    assert forall j :: 0 <= j < |docs| ==> all[j] == docs[j];
    if i < |docs| { assert all[i] == docs[i]; }
  }

  lemma {:induction false} FirstMentionExists(docs: seq<Document>, t: XmlName)
    ensures FirstMention(docs, t) < |docs| <==> Mentions(docs, t) != []
  {
    var i := FirstMention(docs, t);
    if i < |docs| {
      assert docs[i] in Mentions(docs, t);
    } else if Mentions(docs, t) != [] {
      assert Mentions(docs, t)[0] in Mentions(docs, t);
    }
  }

  lemma {:induction false} MentionsExtends(docs: seq<Document>, d: Document, t: XmlName)
    ensures Mentions(docs + [d], t) == Mentions(docs, t) + if Versioned(d) && d.name == t then [d] else []
  {
    assert (docs + [d])[..|docs|] == docs;
  }

  lemma {:induction false} EntryExtends(docs: seq<Document>, d: Document, sdk: Sdk)
    requires EntryIsFirst(docs, sdk)
    ensures EntryIsFirst(docs + [d], Updated(sdk, d))
  {
    var about := Mentions(docs, sdk.typ);
    MentionsExtends(docs, d, sdk.typ);
    if Versioned(d) && d.name == sdk.typ {
      assert (about + [d])[..|about|] == about;
      forall v ensures Lookup(AddItems(sdk.features, d.children), v) == FirstValue(Children(about + [d]), v) {
        AddItemsFirstWins(sdk.features, d.children, v);
        FirstValueOfConcat(Children(about), d.children, v);
      }
    }
  }

  lemma {:induction false} EntryStarts(docs: seq<Document>, d: Document)
    requires Versioned(d) && Mentions(docs, d.name) == []
    ensures EntryIsFirst(docs + [d], Sdk(d.name, d.version.value, AddItems(map[], d.children)))
  {
    MentionsExtends(docs, d, d.name);
    assert Children([d]) == d.children by { assert [d][..0] == []; }
    forall v ensures Lookup(AddItems(map[], d.children), v) == FirstValue(d.children, v) {
      AddItemsFirstWins(map[], d.children, v);
    }
  }

  lemma {:induction false} ParseKeepsMembership(docs: seq<Document>, db: seq<Sdk>, d: Document, t: XmlName)
    requires FirstWins(docs, db)
    ensures Index(Parse(db, d), t) < |Parse(db, d)| <==> Mentions(docs + [d], t) != []
  {
    MentionsExtends(docs, d, t);
    if Versioned(d) {
      ParseVersionedShape(db, d);
      TypesDecideIndex(db, Parse(db, d), d.name, t);
    }
  }

  lemma {:induction false} ParseKeepsEntry(docs: seq<Document>, db: seq<Sdk>, d: Document, i: nat)
    requires FirstWins(docs, db) && i < |Parse(db, d)|
    ensures EntryIsFirst(docs + [d], Parse(db, d)[i])
  {
    if Versioned(d) {
      ParseVersionedShape(db, d);
    }
    if i < |db| {
      EntryExtends(docs, d, db[i]);
    } else {
      EntryStarts(docs, d);
    }
  }

  /** An entry that is there keeps its type, and its first mention is an old document. */
  lemma {:induction false} OldEntryMention(docs: seq<Document>, db: seq<Sdk>, d: Document, i: nat)
    requires FirstWins(docs, db) && i < |db|
    ensures i < |Parse(db, d)| && Parse(db, d)[i].typ == db[i].typ
    ensures FirstMention(docs + [d], db[i].typ) == FirstMention(docs, db[i].typ) < |docs|
  {
    if Versioned(d) {
      ParseVersionedShape(db, d);
    }
    assert EntryIsFirst(docs, db[i]);
    FirstMentionExists(docs, db[i].typ);
    FirstMentionExtends(docs, d, db[i].typ);
  }

  /** A new entry's first mention is the new document. */
  lemma {:induction false} NewEntryMention(docs: seq<Document>, db: seq<Sdk>, d: Document)
    requires FirstWins(docs, db) && |db| < |Parse(db, d)|
    ensures |Parse(db, d)| == |db| + 1 && FirstMention(docs + [d], Parse(db, d)[|db|].typ) >= |docs|
  {
    ParseVersionedShape(db, d);
    FirstMentionExists(docs, d.name);
    FirstMentionExtends(docs, d, d.name);
  }

  lemma {:induction false} ParseKeepsOrder(docs: seq<Document>, db: seq<Sdk>, d: Document, i: nat, j: nat)
    requires FirstWins(docs, db) && i < j < |Parse(db, d)|
    ensures var r := Parse(db, d); FirstMention(docs + [d], r[i].typ) < FirstMention(docs + [d], r[j].typ)
  {
    if j < |db| {
      OldEntryMention(docs, db, d, j);
    } else {
      NewEntryMention(docs, db, d);
    }
    OldEntryMention(docs, db, d, i);
  }

  lemma {:induction false} ParseKeepsFirstWins(docs: seq<Document>, db: seq<Sdk>, d: Document)
    requires FirstWins(docs, db)
    ensures FirstWins(docs + [d], Parse(db, d))
  {
    var all, r := docs + [d], Parse(db, d);
    if Versioned(d) {
      ParseVersionedShape(db, d);
    }
    forall t: XmlName ensures Index(r, t) < |r| <==> Mentions(all, t) != [] {
      ParseKeepsMembership(docs, db, d, t);
    }
    forall i | 0 <= i < |r| ensures EntryIsFirst(all, r[i]) {
      ParseKeepsEntry(docs, db, d, i);
    }
    forall i, j | 0 <= i < j < |r| ensures FirstMention(all, r[i].typ) < FirstMention(all, r[j].typ) {
      ParseKeepsOrder(docs, db, d, i, j);
    }
  }

  lemma {:induction false} ParseVersionedShape(db: seq<Sdk>, d: Document)
    requires Versioned(d) && DistinctTypes(db)
    ensures var r := Parse(db, d);
            && |r| == (if Index(db, d.name) < |db| then |db| else |db| + 1)
            && DistinctTypes(r)
            && (forall i :: 0 <= i < |db| ==> r[i] == Updated(db[i], d))
            && (|r| > |db| ==> r[|db|] == Sdk(d.name, d.version.value, AddItems(map[], d.children)))
  {
    if Index(db, d.name) == |db| {
      var grown := db + [Sdk(d.name, d.version.value, map[])];
      assert DistinctTypes(grown);
      IndexOfEntry(grown, |db|);
    }
  }

  lemma {:induction false} TypesDecideIndex(db: seq<Sdk>, r: seq<Sdk>, name: XmlName, t: XmlName)
    requires |r| == (if Index(db, name) < |db| then |db| else |db| + 1)
    requires forall i :: 0 <= i < |db| ==> r[i].typ == db[i].typ
    requires |r| > |db| ==> r[|db|].typ == name
    ensures Index(r, t) < |r| <==> Index(db, t) < |db| || t == name
  {
    var i, j, n := Index(db, t), Index(r, t), Index(db, name);
    if i < |db| { assert r[i].typ == t; }
    if n < |db| { assert r[n].typ == name; }
    if j < |r| && j < |db| { assert db[j].typ == t; }
  }

  /** The parser, run over any documents in any order, builds the first-wins database. */
  lemma {:induction false} BuildIsFirstWins(docs: seq<Document>)
    ensures FirstWins(docs, ParseAll(docs))
  {
    if docs != [] {
      var front, last := docs[..|docs| - 1], docs[|docs| - 1];
      BuildIsFirstWins(front);
      ParseKeepsFirstWins(front, ParseAll(front), last);
      assert front + [last] == docs;
    }
  }

  lemma {:induction false} AddItemsIdle(m: map<Text, UInt64>, items: seq<Item>)
    requires forall it :: it in items && Registers(it) ==> it.version.value in m
    ensures AddItems(m, items) == m
  {
    if items != [] {
      assert items[|items| - 1] in items;
      AddItemsIdle(m, items[..|items| - 1]);
    }
  }

  lemma {:induction false} RegisteredHasValue(items: seq<Item>, it: Item)
    requires it in items && Registers(it)
    ensures FirstValue(items, it.version.value).Some?
  {
    if items[0] != it { RegisteredHasValue(items[1..], it); }
  }

  lemma {:induction false} ChildrenContain(docs: seq<Document>, d: Document, it: Item)
    requires d in docs && d.Rooted? && it in d.children
    ensures it in Children(docs)
  {
    if docs[|docs| - 1] != d { ChildrenContain(docs[..|docs| - 1], d, it); }
  }

  /** Parsing a document again, at any later time, changes nothing. */
  lemma {:induction false} ParseAgainIdle(docs: seq<Document>, d: Document)
    requires d in docs
    ensures Parse(ParseAll(docs), d) == ParseAll(docs)
  {
    var db := ParseAll(docs);
    BuildIsFirstWins(docs);
    if Versioned(d) {
      var about := Mentions(docs, d.name);
      assert d in about;
      var i := Index(db, d.name);
      assert EntryIsFirst(docs, db[i]);
      forall it | it in d.children && Registers(it) ensures it.version.value in db[i].features {
        ChildrenContain(about, d, it);
        RegisteredHasValue(Children(about), it);
        assert Lookup(db[i].features, it.version.value).Some?;
      }
      AddItemsIdle(db[i].features, d.children);
    }
  }

  /** A document that contributes to a type that is fam but for the case of letters. */
  predicate Named(d: Document, fam: string) {
    d.Rooted? && d.version.Some? && SameText(fam, d.name)
  }

  /** The position of the earliest document that contributes to a type matching fam ignoring case. */
  function FirstOfFamily(docs: seq<Document>, fam: Text): (i: nat)
    ensures i <= |docs|
    ensures forall k :: 0 <= k < i ==> !Named(docs[k], fam)
    ensures i < |docs| ==> Named(docs[i], fam)
  {
    if docs == [] then 0
    else
      var i := FirstOfFamily(docs[..|docs| - 1], fam);
      var d := docs[|docs| - 1];
      if i < |docs| - 1 || Named(d, fam) then i else |docs|
  }

  function TypeOf(o: Option<Sdk>): Option<string> {
    if o.Some? then Some(o.value.typ) else None
  }

  lemma {:induction false} FindInGrown(db: seq<Sdk>, r: seq<Sdk>, fam: Text)
    requires |db| <= |r| <= |db| + 1
    requires forall i :: 0 <= i < |db| ==> r[i].typ == db[i].typ
    ensures TypeOf(Find(r, fam)) ==
            if Find(db, fam).Some? then TypeOf(Find(db, fam))
            else if |r| > |db| && StrCaseEq(fam, r[|db|].typ) then Some(r[|db|].typ) else None
  {
    if db != [] {
      FindInGrown(db[1..], r[1..], fam);
    } else if r != [] {
      assert r[1..] == [];
    }
  }

  lemma {:induction false} FindKnown(db: seq<Sdk>, i: nat, fam: Text)
    requires i < |db| && StrCaseEq(fam, db[i].typ)
    ensures Find(db, fam).Some?
  {
    if i > 0 { FindKnown(db[1..], i - 1, fam); }
  }

  lemma {:induction false} FindIsEntry(db: seq<Sdk>, fam: Text)
    requires Find(db, fam).Some?
    ensures exists i :: 0 <= i < |db| && db[i] == Find(db, fam).value
  {
    if StrCaseEq(fam, db[0].typ) {
      assert db[0] == Find(db, fam).value;
    } else {
      FindIsEntry(db[1..], fam);
      var i :| 0 <= i < |db[1..]| && db[1..][i] == Find(db[1..], fam).value;
      assert db[i + 1] == Find(db, fam).value;
    }
  }

  /** What a lookup ignoring case finds is the type of the earliest matching document. */
  lemma {:induction false} FindIsEarliest(docs: seq<Document>, fam: Text)
    ensures var p := FirstOfFamily(docs, fam);
            TypeOf(Find(ParseAll(docs), fam)) == if p < |docs| then Some(docs[p].name) else None
  {
    if docs != [] {
      var front, d := docs[..|docs| - 1], docs[|docs| - 1];
      var db := ParseAll(front);
      FindIsEarliest(front, fam);
      BuildIsFirstWins(front);
      if Versioned(d) {
        StrCaseEqIff(fam, d.name);
        ParseVersionedShape(db, d);
        FindInGrown(db, Parse(db, d), fam);
        if Index(db, d.name) < |db| && StrCaseEq(fam, d.name) {
          FindKnown(db, Index(db, d.name), fam);
        }
      }
    }
  }

  // The documents read position by position

  /** Item j of document i registers version v for the type of exactly this name. */
  predicate RegistersAt(docs: seq<Document>, name: string, v: string, i: int, j: int) {
    && 0 <= i < |docs| && docs[i].Rooted? && docs[i].version.Some? && docs[i].name == name
    && 0 <= j < |docs[i].children|
    && var it := docs[i].children[j];
       it.name == "ExternalSDK" && it.version.Some? && it.version.value == v && it.content.Some?
  }

  /** And it is the first to do so. */
  ghost predicate FirstAt(docs: seq<Document>, name: string, v: string, i: int, j: int) {
    && RegistersAt(docs, name, v, i, j)
    && forall k, l :: RegistersAt(docs, name, v, k, l) ==> i < k || (i == k && j <= l)
  }

  lemma {:induction false} FirstInItems(items: seq<Item>, v: Text)
    ensures match FirstRegistration(items, v)
            case None => forall j :: 0 <= j < |items| ==> !(Registers(items[j]) && items[j].version.value == v)
            case Some(it) =>
              exists j :: 0 <= j < |items| && items[j] == it && Registers(it) && it.version.value == v
                          && forall l :: 0 <= l < j ==> !(Registers(items[l]) && items[l].version.value == v)
  {
    if items != [] && !(Registers(items[0]) && items[0].version.value == v) {
      FirstInItems(items[1..], v);
      var r := FirstRegistration(items[1..], v);
      if r.Some? {
        var j :| 0 <= j < |items[1..]| && items[1..][j] == r.value
                 && forall l :: 0 <= l < j ==> !(Registers(items[1..][l]) && items[1..][l].version.value == v);
        forall l | 0 <= l < j + 1 ensures !(Registers(items[l]) && items[l].version.value == v) {
          if l > 0 { assert items[l] == items[1..][l - 1]; }
        }
        assert items[j + 1] == r.value;
      } else {
        forall j | 0 <= j < |items| ensures !(Registers(items[j]) && items[j].version.value == v) {
          if j > 0 { assert items[j] == items[1..][j - 1]; }
        }
      }
    }
  }

  lemma {:induction false} FirstRegistrationOfConcat(a: seq<Item>, b: seq<Item>, v: Text)
    ensures FirstRegistration(a + b, v) == OrElse(FirstRegistration(a, v), FirstRegistration(b, v))
  {
    if a == [] {
      assert a + b == b;
    } else {
      FirstRegistrationOfConcat(a[1..], b, v);
      assert (a + b)[1..] == a[1..] + b;
    }
  }

  /** The first registration among the documents of a type, as a place in the documents. */
  ghost predicate FoundAt(docs: seq<Document>, name: string, v: string, found: Option<Item>) {
    match found
    case None => forall i, j :: !RegistersAt(docs, name, v, i, j)
    case Some(it) => exists i, j :: FirstAt(docs, name, v, i, j) && docs[i].children[j] == it
  }

  lemma {:induction false} FirstRegistrationAt(docs: seq<Document>, name: XmlName, v: Text)
    ensures FoundAt(docs, name, v, FirstRegistration(Children(Mentions(docs, name)), v))
  {
    if docs != [] {
      var front, d := docs[..|docs| - 1], docs[|docs| - 1];
      FirstRegistrationAt(front, name, v);
      assert docs == front + [d];
      var before := FirstRegistration(Children(Mentions(front, name)), v);
      MentionsExtends(front, d, name);
      if Versioned(d) && d.name == name {
        assert (Mentions(front, name) + [d])[..|Mentions(front, name)|] == Mentions(front, name);
        FirstRegistrationOfConcat(Children(Mentions(front, name)), d.children, v);
        FoundWithLast(front, d, name, v, before);
      } else {
        FoundWithout(front, d, name, v, before);
      }
    }
  }

  lemma {:induction false} RegistersInFront(front: seq<Document>, d: Document, name: string, v: string)
    ensures forall i, j :: RegistersAt(front + [d], name, v, i, j) <==>
                           RegistersAt(front, name, v, i, j)
                           || (i == |front| && RegistersAt([d], name, v, 0, j))
  {
  }

  lemma {:induction false} FoundWithout(front: seq<Document>, d: Document, name: string, v: string, found: Option<Item>)
    requires FoundAt(front, name, v, found) && !(d.Rooted? && d.version.Some? && d.name == name)
    ensures FoundAt(front + [d], name, v, found)
  {
    RegistersInFront(front, d, name, v);
    if found.Some? {
      var i, j :| FirstAt(front, name, v, i, j) && front[i].children[j] == found.value;
      assert FirstAt(front + [d], name, v, i, j) && (front + [d])[i] == front[i];
    }
  }

  lemma {:induction false} FoundWithLast(front: seq<Document>, d: Document, name: XmlName, v: Text,
                                         before: Option<Item>)
    requires FoundAt(front, name, v, before) && Versioned(d) && d.name == name
    ensures FoundAt(front + [d], name, v, OrElse(before, FirstRegistration(d.children, v)))
  {
    var docs := front + [d];
    RegistersInFront(front, d, name, v);
    if before.Some? {
      var i, j :| FirstAt(front, name, v, i, j) && front[i].children[j] == before.value;
      assert FirstAt(docs, name, v, i, j) && docs[i] == front[i];
    } else {
      FirstInItems(d.children, v);
      var r := FirstRegistration(d.children, v);
      if r.Some? {
        var j :| 0 <= j < |d.children| && d.children[j] == r.value && Registers(r.value)
                 && r.value.version.value == v
                 && forall l :: 0 <= l < j ==> !(Registers(d.children[l]) && d.children[l].version.value == v);
        assert RegistersAt([d], name, v, 0, j);
        assert FirstAt(docs, name, v, |front|, j) && docs[|front|] == d;
      }
    }
  }

  /** The names of the documents that have a version, each once, in order of first appearance. */
  function NamesOf(docs: seq<Document>): seq<string> {
    if docs == [] then []
    else
      var front, d := NamesOf(docs[..|docs| - 1]), docs[|docs| - 1];
      if d.Rooted? && d.version.Some? && d.name !in front then front + [d.name] else front
  }

  /** They are the types of the database. */
  lemma {:induction false} TypesAreNames(docs: seq<Document>)
    ensures Types(ParseAll(docs)) == NamesOf(docs)
  {
    if docs != [] {
      var front, d := docs[..|docs| - 1], docs[|docs| - 1];
      var db := ParseAll(front);
      TypesAreNames(front);
      BuildIsFirstWins(front);
      if Versioned(d) {
        TypesAfter(db, d);
      }
    }
  }

  lemma {:induction false} TypesAfter(db: seq<Sdk>, d: Document)
    requires Versioned(d) && DistinctTypes(db)
    ensures Types(Parse(db, d)) == if d.name in Types(db) then Types(db) else Types(db) + [d.name]
  {
    ParseVersionedShape(db, d);
    IndexFinds(db, d.name);
  }

  lemma {:induction false} IndexFinds(db: seq<Sdk>, t: XmlName)
    ensures Index(db, t) < |db| <==> t in Types(db)
  {
    if Index(db, t) < |db| {
      assert Types(db)[Index(db, t)] == t;
    }
  }
}
